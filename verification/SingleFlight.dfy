/** The shared discovery cache as a protocol: calls, settling fetches, and leaders that resume after their fetch. */
module SingleFlight {
  import opened Common
  import opened BedrockDiscovery
  import opened Traces

  datatype Promise = Pending | Fulfilled(response: seq<Summary>, models: seq<Model>) | Rejected

  /** One fetch, led by the call that started it; `continued` says that the leader ran past its `await`. */
  datatype Fetch = Fetch(key: CacheKey, start: int, promise: Promise, continued: bool)

  datatype Entry = Entry(expiresAt: int, value: Option<seq<Model>>, inFlight: Option<nat>)

  /** Fetches are numbered in the order in which they start and are never forgotten. */
  datatype State = State(cache: map<CacheKey, Entry>, fetches: seq<Fetch>)

  /** What the synchronous part of a call gives its caller: a list, another call's promise, or its own fetch. */
  datatype Answer = Hit(models: seq<Model>) | Joined(fetch: nat) | Led(fetch: nat)

  const INITIAL := State(map[], [])

  function Expiry(f: Fetch): int {
    f.start + f.key.refreshSeconds * 1000
  }

  function Answered(s: State, key: CacheKey, now: int): Answer {
    if key.refreshSeconds > 0 && key in s.cache && s.cache[key].value.Some? && s.cache[key].expiresAt > now then
      Hit(s.cache[key].value.value)
    else if key.refreshSeconds > 0 && key in s.cache && s.cache[key].inFlight.Some? then
      Joined(s.cache[key].inFlight.value)
    else
      Led(|s.fetches|)
  }

  function Called(s: State, key: CacheKey, now: int): State {
    if Answered(s, key, now).Led? then
      State(if key.refreshSeconds > 0
              then s.cache[key := Entry(now + key.refreshSeconds * 1000, None, Some(|s.fetches|))] else s.cache,
            s.fetches + [Fetch(key, now, Pending, false)])
    else s
  }

  predicate CanSettle(s: State, id: nat) {
    id < |s.fetches| && s.fetches[id].promise.Pending?
  }

  function Settled(s: State, id: nat, promise: Promise): State
    requires CanSettle(s, id)
  {
    s.(fetches := s.fetches[id := s.fetches[id].(promise := promise)])
  }

  predicate CanContinue(s: State, id: nat) {
    id < |s.fetches| && !s.fetches[id].promise.Pending? && !s.fetches[id].continued
  }

  function Continued(s: State, id: nat): State
    requires CanContinue(s, id)
  {
    var f := s.fetches[id];
    State(if f.key.refreshSeconds == 0 then s.cache
          else if f.promise.Fulfilled? then s.cache[f.key := Entry(Expiry(f), Some(f.promise.models), None)]
          else s.cache - {f.key},
          s.fetches[id := f.(continued := true)])
  }

  /** The module-level map of the source, with the fetches that its promises stand for. */
  class DiscoveryCache {
    var cache: map<CacheKey, Entry>
    var fetches: seq<Fetch>

    constructor ()
      ensures View() == INITIAL
    {
      cache := map[];
      fetches := [];
    }

    ghost function View(): State
      reads this
    {
      State(cache, fetches)
    }

    /** The part of `discoverBedrockModels` that runs in one turn, up to the `await`. */
    method Call(region: string, config: Config, now: int) returns (answer: Answer)
      modifies this
      ensures var key := BuildCacheKey(region, config);
              answer == Answered(old(View()), key, now) && View() == Called(old(View()), key, now)
    {
      var key := BuildCacheKey(region, config);
      if key.refreshSeconds > 0 && key in cache {
        var cached := cache[key];
        if cached.value.Some? && cached.expiresAt > now {
          return Hit(cached.value.value);
        }
        if cached.inFlight.Some? {
          return Joined(cached.inFlight.value);
        }
      }
      var id := |fetches|;
      fetches := fetches + [Fetch(key, now, Pending, false)];
      if key.refreshSeconds > 0 {
        cache := cache[key := Entry(now + key.refreshSeconds * 1000, None, Some(id))];
      }
      return Led(id);
    }

    /** The response of a fetch arrives, or the fetch fails. */
    method Settle(collate: Collation, id: nat, response: Option<seq<Summary>>)
      requires CanSettle(View(), id)
      modifies this
      ensures View() == Settled(old(View()), id, Outcome(collate, old(fetches)[id].key, response))
    {
      var promise := Rejected;
      if response.Some? {
        var models := CollectModels(collate, response.value, fetches[id].key);
        promise := Fulfilled(response.value, models);
      }
      fetches := fetches[id := fetches[id].(promise := promise)];
    }

    /** The leader resumes: it stores its value or drops the entry, and answers its own caller. */
    method Continue(id: nat) returns (models: seq<Model>)
      requires CanContinue(View(), id)
      modifies this
      ensures View() == Continued(old(View()), id)
      ensures models == if old(fetches)[id].promise.Fulfilled? then old(fetches)[id].promise.models else []
    {
      var f := fetches[id];
      fetches := fetches[id := f.(continued := true)];
      if f.promise.Fulfilled? {
        if f.key.refreshSeconds > 0 {
          cache := cache[f.key := Entry(f.start + f.key.refreshSeconds * 1000, Some(f.promise.models), None)];
        }
        return f.promise.models;
      }
      if f.key.refreshSeconds > 0 {
        cache := cache - {f.key};
      }
      return [];
    }
  }

  function Outcome(collate: Collation, key: CacheKey, response: Option<seq<Summary>>): Promise {
    if response.Some? then Fulfilled(response.value, Discovered(collate, response.value, key)) else Rejected
  }

  // ----- runs

  datatype Step = DoCall(key: CacheKey, now: int) | DoSettle(id: nat,
      response: Option<seq<Summary>>) | DoContinue(id: nat)

  function Apply(collate: Collation, s: State, step: Step): State {
    match step
    case DoCall(key, now) => Called(s, key, now)
    case DoSettle(id, response) =>
      if CanSettle(s, id) then Settled(s, id, Outcome(collate, s.fetches[id].key, response)) else s
    case DoContinue(id) => if CanContinue(s, id) then Continued(s, id) else s
  }

  /** Any interleaving of calls, settling fetches and resuming leaders; a step that is not enabled does nothing. */
  function Run(collate: Collation, steps: seq<Step>): State {
    After((s, step) => Apply(collate, s, step), INITIAL, steps)
  }

  // ----- the cache is a function of the fetches

  /** The latest fetch for a key, if any. */
  function Latest(fetches: seq<Fetch>, key: CacheKey): (r: Option<nat>)
    ensures r.Some? ==> r.value < |fetches| && fetches[r.value].key == key
    ensures forall i | 0 <= i < |fetches| && fetches[i].key == key :: r.Some? && i <= r.value
  {
    if fetches == [] then None
    else if fetches[|fetches| - 1].key == key then Some(|fetches| - 1)
    else Latest(fetches[..|fetches| - 1], key)
  }

  /** In flight until the leader resumes, then its value, or nothing if it failed. */
  function EntryOf(fetches: seq<Fetch>, id: nat): Option<Entry>
    requires id < |fetches|
  {
    var f := fetches[id];
    if !f.continued then Some(Entry(Expiry(f), None, Some(id)))
    else if f.promise.Fulfilled? then Some(Entry(Expiry(f), Some(f.promise.models), None))
    else None
  }

  function ExpectedEntry(fetches: seq<Fetch>, key: CacheKey): Option<Entry> {
    var latest := Latest(fetches, key);
    if latest.Some? then EntryOf(fetches, latest.value) else None
  }

  function Lookup(cache: map<CacheKey, Entry>, key: CacheKey): Option<Entry> {
    if key in cache then Some(cache[key]) else None
  }

  /** With caching on, a fetch that is not the latest for its key has been resumed. */
  ghost predicate OnlyLatestOpen(fetches: seq<Fetch>) {
    forall i, j | 0 <= i < j < |fetches| && fetches[i].key == fetches[j].key && fetches[i].key.refreshSeconds > 0 ::
      fetches[i].continued
  }

  ghost predicate Inv(s: State) {
    && (forall key | key in s.cache :: key.refreshSeconds > 0)
    && (forall key: CacheKey | key.refreshSeconds > 0 :: Lookup(s.cache, key) == ExpectedEntry(s.fetches, key))
    && OnlyLatestOpen(s.fetches)
    && (forall i | 0 <= i < |s.fetches| && s.fetches[i].continued :: !s.fetches[i].promise.Pending?)
  }

  lemma LatestIs(fetches: seq<Fetch>, key: CacheKey, id: nat)
    requires id < |fetches| && fetches[id].key == key
    requires forall i | id < i < |fetches| :: fetches[i].key != key
    ensures Latest(fetches, key) == Some(id)
  {
  }

  lemma LatestSame(fetches: seq<Fetch>, id: nat, f: Fetch, key: CacheKey)
    requires id < |fetches| && f.key == fetches[id].key
    ensures Latest(fetches[id := f], key) == Latest(fetches, key)
  {
    var a, b := Latest(fetches[id := f], key), Latest(fetches, key);
    assert forall i | 0 <= i < |fetches| :: fetches[id := f][i].key == fetches[i].key;
    if b.Some? {
      assert fetches[id := f][b.value].key == key;
    }
  }

  lemma CallKeepsEntry(s: State, key: CacheKey, now: int, k: CacheKey)
    requires Inv(s) && Answered(s, key, now).Led? && k.refreshSeconds > 0
    ensures Lookup(Called(s, key, now).cache, k) == ExpectedEntry(Called(s, key, now).fetches, k)
  {
    var t := Called(s, key, now);
    var n := |s.fetches|;
    assert t.fetches[..n] == s.fetches;
    assert Lookup(s.cache, k) == ExpectedEntry(s.fetches, k);
    if k == key {
      LatestIs(t.fetches, k, n);
    } else {
      var latest := Latest(s.fetches, k);
      assert Latest(t.fetches, k) == latest;
      assert latest.Some? ==> t.fetches[latest.value] == s.fetches[latest.value];
      assert Lookup(t.cache, k) == Lookup(s.cache, k);
    }
  }

  /** A call leads a fetch only when the latest fetch for its key has been resumed. */
  lemma LeaderFindsNoneOpen(s: State, key: CacheKey, now: int)
    requires Inv(s) && Answered(s, key, now).Led? && key.refreshSeconds > 0
    ensures forall i | 0 <= i < |s.fetches| && s.fetches[i].key == key :: s.fetches[i].continued
  {
    assert Lookup(s.cache, key) == ExpectedEntry(s.fetches, key);
    forall i | 0 <= i < |s.fetches| && s.fetches[i].key == key ensures s.fetches[i].continued {
      var latest := Latest(s.fetches, key);
      assert latest.value != i ==> s.fetches[i].continued;
    }
  }

  lemma CallKeepsInv(s: State, key: CacheKey, now: int)
    requires Inv(s)
    ensures Inv(Called(s, key, now))
  {
    var t := Called(s, key, now);
    if Answered(s, key, now).Led? {
      forall k: CacheKey | k.refreshSeconds > 0 ensures Lookup(t.cache, k) == ExpectedEntry(t.fetches, k) {
        CallKeepsEntry(s, key, now, k);
      }
      if key.refreshSeconds > 0 {
        LeaderFindsNoneOpen(s, key, now);
      }
    }
  }

  lemma SettleKeepsInv(s: State, id: nat, promise: Promise)
    requires Inv(s) && CanSettle(s, id) && !promise.Pending?
    ensures Inv(Settled(s, id, promise))
  {
    var t := Settled(s, id, promise);
    forall k: CacheKey | k.refreshSeconds > 0 ensures Lookup(t.cache, k) == ExpectedEntry(t.fetches, k) {
      SettleKeepsEntry(s, id, promise, k);
    }
    assert OnlyLatestOpen(t.fetches) by {
      assert forall i | 0 <= i < |t.fetches| ::
          t.fetches[i].key == s.fetches[i].key && t.fetches[i].continued == s.fetches[i].continued;
    }
  }

  /** A fetch that settles is not resumed yet, so the entry of its key stays in flight. */
  lemma SettleKeepsEntry(s: State, id: nat, promise: Promise, key: CacheKey)
    requires Inv(s) && CanSettle(s, id) && key.refreshSeconds > 0
    ensures Lookup(Settled(s, id, promise).cache, key) == ExpectedEntry(Settled(s, id, promise).fetches, key)
  {
    var t := Settled(s, id, promise);
    LatestSame(s.fetches, id, t.fetches[id], key);
    assert Lookup(s.cache, key) == ExpectedEntry(s.fetches, key);
    assert !s.fetches[id].continued;
  }

  /** A leader that is about to resume still owns the entry for its key. */
  lemma LeaderOwnsEntry(s: State, id: nat)
    requires Inv(s) && id < |s.fetches| && !s.fetches[id].continued && s.fetches[id].key.refreshSeconds > 0
    ensures Latest(s.fetches, s.fetches[id].key) == Some(id)
    ensures Lookup(s.cache, s.fetches[id].key) == Some(Entry(Expiry(s.fetches[id]), None, Some(id)))
  {
    LatestIs(s.fetches, s.fetches[id].key, id);
  }

  lemma ContinueOwnEntry(s: State, id: nat)
    requires Inv(s) && CanContinue(s, id) && s.fetches[id].key.refreshSeconds > 0
    ensures var key := s.fetches[id].key;
            Lookup(Continued(s, id).cache, key) == ExpectedEntry(Continued(s, id).fetches, key)
  {
    var t := Continued(s, id);
    LatestSame(s.fetches, id, t.fetches[id], s.fetches[id].key);
    LeaderOwnsEntry(s, id);
  }

  lemma ContinueOtherEntry(s: State, id: nat, key: CacheKey)
    requires Inv(s) && CanContinue(s, id) && key.refreshSeconds > 0 && s.fetches[id].key != key
    ensures Lookup(Continued(s, id).cache, key) == ExpectedEntry(Continued(s, id).fetches, key)
  {
    var t := Continued(s, id);
    LatestSame(s.fetches, id, t.fetches[id], key);
    assert Lookup(s.cache, key) == ExpectedEntry(s.fetches, key);
    assert Lookup(t.cache, key) == Lookup(s.cache, key);
    var latest := Latest(s.fetches, key);
    assert latest.Some? ==> t.fetches[latest.value] == s.fetches[latest.value];
  }

  lemma ContinueKeepsInv(s: State, id: nat)
    requires Inv(s) && CanContinue(s, id)
    ensures Inv(Continued(s, id))
  {
    var t := Continued(s, id);
    forall key: CacheKey | key.refreshSeconds > 0 ensures Lookup(t.cache, key) == ExpectedEntry(t.fetches, key) {
      if s.fetches[id].key == key {
        ContinueOwnEntry(s, id);
      } else {
        ContinueOtherEntry(s, id, key);
      }
    }
    assert OnlyLatestOpen(t.fetches) by {
      assert forall i | 0 <= i < |t.fetches| ::
          t.fetches[i].key == s.fetches[i].key && (s.fetches[i].continued ==> t.fetches[i].continued);
    }
  }

  lemma ApplyKeepsInv(collate: Collation, s: State, step: Step)
    requires Inv(s)
    ensures Inv(Apply(collate, s, step))
  {
    match step
    case DoCall(key, now) => CallKeepsInv(s, key, now);
    case DoSettle(id, response) =>
      if CanSettle(s, id) {
        SettleKeepsInv(s, id, Outcome(collate, s.fetches[id].key, response));
      }
    case DoContinue(id) =>
      if CanContinue(s, id) {
        ContinueKeepsInv(s, id);
      }
  }

  lemma RunKeepsInv(collate: Collation, steps: seq<Step>)
    ensures Inv(Run(collate, steps))
  {
    var apply, fact := (s, step) => Apply(collate, s, step), s => Inv(s);
    forall s, step | fact(s) ensures fact(apply(s, step)) {
      ApplyKeepsInv(collate, s, step);
    }
    AlwaysHolds(apply, INITIAL, steps, fact, (step: Step) => true);
  }

  // ----- what callers can rely on, in every reachable state

  /** With caching on, a key never has two fetches whose leaders have not resumed; its entry is in flight exactly while
      one has not, belongs to that leader, and never holds both a value and a promise. */
  lemma SingleFlightAlways(collate: Collation, steps: seq<Step>, key: CacheKey, id: nat)
    requires key.refreshSeconds > 0
    ensures var s := Run(collate, steps);
            && (forall i, j | 0 <= i < |s.fetches| && 0 <= j < |s.fetches| ::
                  Open(s, key, i) && Open(s, key, j) ==> i == j)
            && (Open(s, key, id) <==> key in s.cache && s.cache[key].inFlight == Some(id))
            && (key in s.cache ==> s.cache[key].inFlight.None? || s.cache[key].value.None?)
  {
    RunKeepsInv(collate, steps);
    var s := Run(collate, steps);
    assert Lookup(s.cache, key) == ExpectedEntry(s.fetches, key);
    if Open(s, key, id) {
      LeaderOwnsEntry(s, id);
    }
  }

  ghost predicate Open(s: State, key: CacheKey, id: nat) {
    id < |s.fetches| && s.fetches[id].key == key && !s.fetches[id].continued
  }

  /** Fetch `id` is the latest one for the key, its leader has resumed with a list, and the list is still young. */
  ghost predicate Fresh(s: State, key: CacheKey, id: nat, now: int) {
    && id < |s.fetches| && s.fetches[id].key == key && (forall j | id < j < |s.fetches| :: s.fetches[j].key != key)
    && s.fetches[id].continued && s.fetches[id].promise.Fulfilled?
    && now < s.fetches[id].start + key.refreshSeconds * 1000
  }

  /** With caching on, a call joins exactly the fetch for its own key whose leader has not resumed, takes the list of
      a fresh fetch for its key if there is one, and starts the next fetch if there is neither. */
  lemma AnswerIff(collate: Collation, steps: seq<Step>, key: CacheKey, now: int, id: nat)
    requires key.refreshSeconds > 0
    ensures var s := Run(collate, steps);
            var answer := Answered(s, key, now);
            && (answer == Joined(id) <==> Open(s, key, id))
            && (Fresh(s, key, id, now) ==> answer == Hit(s.fetches[id].promise.models))
            && (answer.Hit? ==> exists i: nat :: Fresh(s, key, i, now))
            && (answer == Led(id) <==>
                id == |s.fetches| && forall i: nat :: !Open(s, key, i) && !Fresh(s, key, i, now))
  {
    RunKeepsInv(collate, steps);
    var s := Run(collate, steps);
    var answer := Answered(s, key, now);
    assert Lookup(s.cache, key) == ExpectedEntry(s.fetches, key);
    forall i: nat ensures answer == Joined(i) <==> Open(s, key, i) {
      SingleFlightAlways(collate, steps, key, i);
    }
    forall i: nat | Fresh(s, key, i, now) ensures answer == Hit(s.fetches[i].promise.models) {
      LatestIs(s.fetches, key, i);
    }
    if answer.Hit? {
      assert Fresh(s, key, Latest(s.fetches, key).value, now);
    }
  }

  /** With caching off every call starts a fetch of its own. */
  lemma UncachedLeads(s: State, key: CacheKey, now: int)
    requires key.refreshSeconds <= 0
    ensures Answered(s, key, now) == Led(|s.fetches|)
  {
  }

  /** One fetch from start to end: later calls for its key join it until its leader resumes, then take the list made
      from its response until the refresh interval is over; without a response the next call starts another fetch. */
  lemma LifeOfFetch(
      collate: Collation, steps: seq<Step>, key: CacheKey, now: int, response: Option<seq<Summary>>, later: int)
    requires key.refreshSeconds > 0 && Answered(Run(collate, steps), key, now).Led?
    ensures var id := |Run(collate, steps).fetches|;
            var called := Apply(collate, Run(collate, steps), DoCall(key, now));
            var settled := Apply(collate, called, DoSettle(id, response));
            var resumed := Apply(collate, settled, DoContinue(id));
            && Answered(called, key, later) == Answered(settled, key, later) == Joined(id)
            && Answered(resumed, key, later) ==
               if response.Some? && later < now + key.refreshSeconds * 1000
                 then Hit(Discovered(collate, response.value, key)) else Led(id + 1)
  {
    var s := Run(collate, steps);
    RunKeepsInv(collate, steps);
    CallKeepsInv(s, key, now);
    var called := Apply(collate, s, DoCall(key, now));
    var id := |s.fetches|;
    assert called.fetches[id] == Fetch(key, now, Pending, false);
    LatestIs(called.fetches, key, id);
    OpenIsJoined(called, key, id, later);
    var promise := Outcome(collate, key, response);
    SettleKeepsInv(called, id, promise);
    var settled := Settled(called, id, promise);
    LatestIs(settled.fetches, key, id);
    OpenIsJoined(settled, key, id, later);
  }

  lemma OpenIsJoined(s: State, key: CacheKey, id: nat, now: int)
    requires Inv(s) && key.refreshSeconds > 0 && Latest(s.fetches, key) == Some(id) && !s.fetches[id].continued
    ensures Answered(s, key, now) == Joined(id)
  {
    assert Lookup(s.cache, key) == ExpectedEntry(s.fetches, key);
  }

  /** A hit is the list that the latest fetch for the key computed from its response, and that fetch started less than
      one refresh interval before `now`. */
  lemma HitAgreesWithFetch(collate: Collation, steps: seq<Step>, key: CacheKey, now: int)
    requires Answered(Run(collate, steps), key, now).Hit?
    ensures var s := Run(collate, steps);
            var latest := Latest(s.fetches, key);
            && latest.Some?
            && var f := s.fetches[latest.value];
            && f.promise.Fulfilled?
            && Answered(s, key, now).models == Discovered(collate, f.promise.response, key)
            && now < f.start + key.refreshSeconds * 1000
  {
    RunKeepsInv(collate, steps);
    RunDiscovers(collate, steps);
    var s := Run(collate, steps);
    assert Lookup(s.cache, key) == ExpectedEntry(s.fetches, key);
  }

  ghost predicate Discovers(collate: Collation, s: State) {
    forall i | 0 <= i < |s.fetches| && s.fetches[i].promise.Fulfilled? ::
      s.fetches[i].promise.models == Discovered(collate, s.fetches[i].promise.response, s.fetches[i].key)
  }

  lemma ApplyDiscovers(collate: Collation, s: State, step: Step)
    requires Discovers(collate, s)
    ensures Discovers(collate, Apply(collate, s, step))
  {
    var t := Apply(collate, s, step);
    forall i | 0 <= i < |t.fetches| && t.fetches[i].promise.Fulfilled?
      ensures t.fetches[i].promise.models == Discovered(collate, t.fetches[i].promise.response, t.fetches[i].key)
    {
      if i < |s.fetches| && t.fetches[i].promise == s.fetches[i].promise {
        assert t.fetches[i].key == s.fetches[i].key;
      }
    }
  }

  lemma RunDiscovers(collate: Collation, steps: seq<Step>)
    ensures Discovers(collate, Run(collate, steps))
  {
    var apply, fact := (s, step) => Apply(collate, s, step), s => Discovers(collate, s);
    forall s, step | fact(s) ensures fact(apply(s, step)) {
      ApplyDiscovers(collate, s, step);
    }
    AlwaysHolds(apply, INITIAL, steps, fact, (step: Step) => true);
  }

  /** A failed fetch leaves nothing behind: the next call for its key starts a fetch of its own. */
  lemma FailureIsNotCached(collate: Collation, steps: seq<Step>, id: nat, now: int)
    requires CanContinue(Run(collate, steps), id) && Run(collate, steps).fetches[id].promise.Rejected?
    ensures var s := Continued(Run(collate, steps), id);
            Answered(s, s.fetches[id].key, now) == Led(|s.fetches|)
  {
    RunKeepsInv(collate, steps);
    ContinueKeepsInv(Run(collate, steps), id);
  }

  // ----- the refresh interval limits how often a provider is asked

  /** The clock that calls read does not run backwards. */
  ghost predicate ClockForward(steps: seq<Step>) {
    forall i, j | 0 <= i < j < |steps| && steps[i].DoCall? && steps[j].DoCall? :: steps[i].now <= steps[j].now
  }

  /** Every later fetch for the key of a resumed successful fetch starts at least a refresh interval after it. */
  ghost predicate Spaced(fetches: seq<Fetch>) {
    forall i, j | 0 <= i < j < |fetches| && fetches[i].key == fetches[j].key && fetches[i].key.refreshSeconds > 0 ::
      fetches[i].promise.Fulfilled? ==> Expiry(fetches[i]) <= fetches[j].start
  }

  ghost predicate NoneAfter(fetches: seq<Fetch>, now: int) {
    forall i | 0 <= i < |fetches| :: fetches[i].start <= now
  }

  predicate CallsBy(step: Step, now: int) {
    step.DoCall? ==> step.now <= now
  }

  lemma ApplyKeepsNoneAfter(collate: Collation, s: State, step: Step, now: int)
    requires NoneAfter(s.fetches, now) && CallsBy(step, now)
    ensures NoneAfter(Apply(collate, s, step).fetches, now)
  {
    var t := Apply(collate, s, step);
    assert forall i | 0 <= i < |s.fetches| :: t.fetches[i].start == s.fetches[i].start;
  }

  lemma RunNoneAfter(collate: Collation, steps: seq<Step>, now: int)
    requires forall i | 0 <= i < |steps| :: CallsBy(steps[i], now)
    ensures NoneAfter(Run(collate, steps).fetches, now)
  {
    var apply, fact, allowed := (s, step) => Apply(collate, s, step), (s: State) => NoneAfter(s.fetches, now),
        step => CallsBy(step, now);
    forall s, step | fact(s) && allowed(step) ensures fact(apply(s, step)) {
      ApplyKeepsNoneAfter(collate, s, step, now);
    }
    AlwaysHolds(apply, INITIAL, steps, fact, allowed);
  }

  lemma CallKeepsSpaced(s: State, key: CacheKey, now: int)
    requires Inv(s) && Spaced(s.fetches)
    requires NoneAfter(s.fetches, now)
    ensures Spaced(Called(s, key, now).fetches)
  {
    if Answered(s, key, now).Led? && key.refreshSeconds > 0 {
      var n := |s.fetches|;
      var t := Called(s, key, now).fetches;
      forall i | 0 <= i < n && t[i].key == key && t[i].promise.Fulfilled?
        ensures Expiry(t[i]) <= t[n].start
      {
        var latest := Latest(s.fetches, key);
        assert Lookup(s.cache, key) == ExpectedEntry(s.fetches, key);
        if latest.value != i {
          assert Expiry(s.fetches[i]) <= s.fetches[latest.value].start;
        }
      }
    }
  }

  lemma ApplyKeepsSpaced(collate: Collation, s: State, step: Step)
    requires Inv(s) && Spaced(s.fetches)
    requires step.DoCall? ==> NoneAfter(s.fetches, step.now)
    ensures Spaced(Apply(collate, s, step).fetches)
  {
    match step
    case DoCall(key, now) => CallKeepsSpaced(s, key, now);
    case DoSettle(id, response) =>
      if CanSettle(s, id) {
        SettleKeepsSpaced(s, id, Outcome(collate, s.fetches[id].key, response));
      }
    case DoContinue(id) =>
      if CanContinue(s, id) {
        assert forall i | 0 <= i < |s.fetches| ::
            Continued(s, id).fetches[i].(continued := true) == s.fetches[i].(continued := true);
      }
  }

  /** With a clock that does not run backwards, two fetches for one key, the first of them successful, start at least
      one refresh interval apart. */
  lemma {:induction false} FetchesAreSpaced(collate: Collation, steps: seq<Step>)
    requires ClockForward(steps)
    ensures Spaced(Run(collate, steps).fetches)
  {
    if steps != [] {
      var init, last := steps[..|steps| - 1], steps[|steps| - 1];
      assert forall i | 0 <= i < |init| :: init[i] == steps[i];
      FetchesAreSpaced(collate, init);
      RunKeepsInv(collate, init);
      if last.DoCall? {
        RunNoneAfter(collate, init, last.now);
      }
      ApplyKeepsSpaced(collate, Run(collate, init), last);
    }
  }

  lemma SettleKeepsSpaced(s: State, id: nat, promise: Promise)
    requires Inv(s) && CanSettle(s, id) && Spaced(s.fetches)
    ensures Spaced(Settled(s, id, promise).fetches)
  {
    assert !s.fetches[id].continued;
  }
}
