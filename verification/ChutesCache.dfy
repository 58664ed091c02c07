/** The Chutes model cache: bounded, time-limited, and shared by overlapping discovery calls. */
module ChutesCache {
  import opened Common
  import opened Js
  import opened Traces

  const CACHE_TTL := 5 * 60 * 1000
  const CACHE_MAX_ENTRIES := 100

  // ----- one response

  /** A listed model: its id and the number of the response entry that supplies its other fields. */
  datatype Model = Model(id: string, entry: nat)

  /** An entry's trimmed id; a missing id or one that is no text is blank. */
  function EntryId(id: Option<string>): string {
    Trim(id.GetOr(""))
  }

  function ModelIds(models: seq<Model>): set<string> {
    set m | m in models :: m.id
  }

  function EntryIds(data: seq<Option<string>>): (ids: seq<string>)
    ensures |ids| == |data|
    ensures forall i | 0 <= i < |data| :: ids[i] == EntryId(data[i])
  {
    seq(|data|, i requires 0 <= i < |data| => EntryId(data[i]))
  }

  /** The response loop over the first `n` entries, of which only the ids matter here. */
  function Parsed(ids: seq<string>, n: nat): seq<Model>
    requires n <= |ids|
  {
    if n == 0 then [] else
      var models, id := Parsed(ids, n - 1), ids[n - 1];
      if id == "" || id in ModelIds(models) then models else models + [Model(id, n - 1)]
  }

  lemma ModelIdsSnoc(models: seq<Model>, m: Model)
    ensures ModelIds(models + [m]) == ModelIds(models) + {m.id}
  {
    assert forall x :: x in models + [m] <==> x in models || x == m;
  }

  /** The parsing loop of `discoverChutesModels`. */
  method ParseModels(data: seq<Option<string>>) returns (models: seq<Model>)
    ensures models == Parsed(EntryIds(data), |data|)
  {
    models := ParseWith(data, EntryId, EntryIds(data));
  }

  method ParseWith<T>(data: seq<T>, idOf: T -> string, ghost ids: seq<string>) returns (models: seq<Model>)
    requires |ids| == |data| && forall i | 0 <= i < |data| :: ids[i] == idOf(data[i])
    ensures models == Parsed(ids, |data|)
  {
    models := [];
    var seen: set<string> := {};
    for i := 0 to |data|
      invariant models == Parsed(ids, i) && seen == ModelIds(models)
    {
      var id := idOf(data[i]);
      if id == "" || id in seen {
        continue;
      }
      ModelIdsSnoc(models, Model(id, i));
      seen := seen + {id};
      models := models + [Model(id, i)];
    }
  }

  /** The entry is the first of its response with its id, and the id is not blank. */
  ghost predicate FirstOccurrence(ids: seq<string>, n: nat, m: Model) {
    m.entry < n <= |ids| && m.id != "" && ids[m.entry] == m.id && m.id !in ids[..m.entry]
  }

  lemma {:induction false} FirstOf(ids: seq<string>, n: nat, id: string) returns (i: nat)
    requires n <= |ids| && id in ids[..n]
    ensures i < n && ids[i] == id && id !in ids[..i]
  {
    if id in ids[..n - 1] {
      i := FirstOf(ids, n - 1, id);
    } else {
      i := n - 1;
    }
  }

  lemma InIds(models: seq<Model>, m: Model)
    requires m in models
    ensures m.id in ModelIds(models)
  {
  }

  /** The list has exactly the first occurrences of the non-blank ids, in the order of the response. */
  lemma {:induction false} ParsedIsFirstOccurrences(ids: seq<string>, n: nat)
    requires n <= |ids|
    ensures forall m :: m in Parsed(ids, n) <==> FirstOccurrence(ids, n, m)
    ensures forall i, j | 0 <= i < j < |Parsed(ids, n)| :: Parsed(ids, n)[i].entry < Parsed(ids, n)[j].entry
  {
    if n > 0 {
      ParsedIsFirstOccurrences(ids, n - 1);
      var models, id := Parsed(ids, n - 1), ids[n - 1];
      if id != "" && id in ids[..n - 1] {
        var i := FirstOf(ids, n - 1, id);
        assert FirstOccurrence(ids, n - 1, Model(id, i));
        InIds(models, Model(id, i));
      }
      assert id in ModelIds(models) ==> id in ids[..n - 1];
      assert FirstOccurrence(ids, n, Model(id, n - 1)) <==> id != "" && id !in ids[..n - 1];
      forall m ensures FirstOccurrence(ids, n, m)
          <==> FirstOccurrence(ids, n - 1, m) || (m == Model(id, n - 1) && id != "" && id !in ids[..n - 1]) {
      }
      forall i | 0 <= i < |models| ensures models[i].entry < n - 1 {
        assert models[i] in models;
      }
    }
  }

  /** Non-empty, with distinct non-blank trimmed ids. */
  ghost predicate ValidList(models: seq<Model>) {
    && models != []
    && (forall i | 0 <= i < |models| :: models[i].id != "" && IsTrimmed(models[i].id))
    && (forall i, j | 0 <= i < j < |models| :: models[i].id != models[j].id)
  }

  /** How the last response of a call turned out: an error of any kind, or a list of entries. */
  datatype Outcome = Failed | Data(data: seq<Option<string>>)

  function ModelsOf(catalog: seq<Model>, outcome: Outcome): seq<Model> {
    if outcome.Failed? then catalog
    else
      var models := Parsed(EntryIds(outcome.data), |outcome.data|);
      if models == [] then catalog else models
  }

  lemma ModelsOfValid(catalog: seq<Model>, outcome: Outcome)
    requires ValidList(catalog)
    ensures ValidList(ModelsOf(catalog, outcome))
  {
    if outcome.Data? {
      var ids := EntryIds(outcome.data);
      assert forall i | 0 <= i < |ids| :: ids[i] == EntryId(outcome.data[i]) && IsTrimmed(ids[i]);
      ParsedIsFirstOccurrences(ids, |ids|);
      FirstOccurrencesValid(ids, Parsed(ids, |ids|));
    }
  }

  lemma FirstOccurrencesValid(ids: seq<string>, models: seq<Model>)
    requires forall i | 0 <= i < |ids| :: IsTrimmed(ids[i])
    requires forall m | m in models :: FirstOccurrence(ids, |ids|, m)
    requires forall i, j | 0 <= i < j < |models| :: models[i].entry < models[j].entry
    ensures models != [] ==> ValidList(models)
  {
    forall i | 0 <= i < |models| ensures FirstOccurrence(ids, |ids|, models[i]) {
      assert models[i] in models;
    }
    forall i, j | 0 <= i < j < |models| ensures models[i].id != models[j].id {
      assert ids[..models[j].entry][models[i].entry] == models[i].id;
    }
  }

  /** The entry's id is a text that trims to the non-empty `id`. */
  ghost predicate Identifies(entry: Option<string>, id: string) {
    entry.Some? && !AllSpaces(entry.value) && id == Trim(entry.value)
  }

  ghost predicate Usable(outcome: Outcome) {
    outcome.Data? && exists i :: 0 <= i < |outcome.data| && Identifies(outcome.data[i], EntryId(outcome.data[i]))
  }

  lemma IdentifiesIff(entry: Option<string>, id: string)
    ensures Identifies(entry, id) <==> id != "" && EntryId(entry) == id
  {
    BlankIff(entry.GetOr(""));
  }

  /** A response with no usable id, or none at all, gives the catalog; any other gives the first entry for each of its
      ids, in order. */
  lemma AnswerMeans(catalog: seq<Model>, outcome: Outcome, m: Model)
    ensures !Usable(outcome) ==> ModelsOf(catalog, outcome) == catalog
    ensures Usable(outcome) ==>
              (m in ModelsOf(catalog, outcome) <==>
               m.entry < |outcome.data| && Identifies(outcome.data[m.entry], m.id)
                   && forall j | 0 <= j < m.entry :: !Identifies(outcome.data[j], m.id))
    ensures Usable(outcome) ==> var models := ModelsOf(catalog, outcome);
                                forall i, j | 0 <= i < j < |models| :: models[i].entry < models[j].entry
  {
    if outcome.Data? {
      var ids := EntryIds(outcome.data);
      ParsedIsFirstOccurrences(ids, |ids|);
      ParsedIff(outcome.data, ids, m);
      UsableIff(outcome.data, ids);
    }
  }

  lemma ParsedIff(data: seq<Option<string>>, ids: seq<string>, m: Model)
    requires |ids| == |data| && forall i | 0 <= i < |data| :: ids[i] == EntryId(data[i])
    ensures FirstOccurrence(ids, |ids|, m) <==>
            m.entry < |data| && Identifies(data[m.entry], m.id)
                && forall j | 0 <= j < m.entry :: !Identifies(data[j], m.id)
  {
    forall i | 0 <= i < |data| ensures Identifies(data[i], m.id) <==> m.id != "" && ids[i] == m.id {
      IdentifiesIff(data[i], m.id);
    }
    assert m.entry < |ids| ==> (m.id !in ids[..m.entry] <==> forall j | 0 <= j < m.entry :: ids[j] != m.id);
  }

  lemma UsableIff(data: seq<Option<string>>, ids: seq<string>)
    requires |ids| == |data| && forall i | 0 <= i < |data| :: ids[i] == EntryId(data[i])
    ensures Usable(Data(data)) <==> Parsed(ids, |ids|) != []
  {
    forall i | 0 <= i < |data| ensures Identifies(data[i], EntryId(data[i])) <==> ids[i] != "" {
      IdentifiesIff(data[i], ids[i]);
    }
    SomeParsed(ids);
  }

  lemma SomeParsed(ids: seq<string>)
    ensures Parsed(ids, |ids|) != [] <==> exists i :: 0 <= i < |ids| && ids[i] != ""
  {
    ParsedIsFirstOccurrences(ids, |ids|);
    if i :| 0 <= i < |ids| && ids[i] != "" {
      assert ids[..|ids|] == ids;
      var k := FirstOf(ids, |ids|, ids[i]);
      assert FirstOccurrence(ids, |ids|, Model(ids[i], k));
    }
    if Parsed(ids, |ids|) != [] {
      assert FirstOccurrence(ids, |ids|, Parsed(ids, |ids|)[0]);
    }
  }

  // ----- the cache

  /** A map slot, in insertion order; `caller` records the call that stored it. */
  datatype Slot = Slot(key: string, models: seq<Model>, time: int, caller: nat)

  type Slots = seq<Slot>

  predicate Fresh(slot: Slot, now: int) {
    now - slot.time < CACHE_TTL
  }

  function Pruned(slots: Slots, now: int): (r: Slots)
    ensures |r| <= |slots|
    ensures forall s :: s in r <==> s in slots && Fresh(s, now)
  {
    if slots == [] then [] else
      var last := slots[|slots| - 1];
      assert forall s :: s in slots <==> s in slots[..|slots| - 1] || s == last;
      Pruned(slots[..|slots| - 1], now) + if Fresh(last, now) then [last] else []
  }

  /** Pruning acts on parts of the list one after the other and keeps a single slot for five minutes. */
  lemma PrunedLaws(xs: Slots, ys: Slots, slot: Slot, now: int)
    ensures Pruned(xs + ys, now) == Pruned(xs, now) + Pruned(ys, now)
    ensures Pruned([slot], now) == if now - slot.time < 300_000 then [slot] else []
  {
    PrunedConcat(xs, ys, now);
    assert [slot] == [] + [slot];
    PrunedNext([slot], [], slot, now);
  }

  lemma PrunedNext(slots: Slots, xs: Slots, last: Slot, now: int)
    requires slots == xs + [last]
    ensures Pruned(slots, now) == Pruned(xs, now) + if now - last.time < 300_000 then [last] else []
  {
    assert slots[..|slots| - 1] == xs;
  }

  lemma {:induction false} PrunedConcat(xs: Slots, ys: Slots, now: int)
    ensures Pruned(xs + ys, now) == Pruned(xs, now) + Pruned(ys, now)
  {
    if ys == [] {
      assert xs + ys == xs;
      assert Pruned(xs, now) + [] == Pruned(xs, now);
    } else {
      var init, last := ys[..|ys| - 1], ys[|ys| - 1];
      PrunedConcat(xs, init, now);
      PrunedStep(xs, init, last, now);
      assert ys == init + [last];
    }
  }

  lemma PrunedStep(xs: Slots, init: Slots, last: Slot, now: int)
    requires Pruned(xs + init, now) == Pruned(xs, now) + Pruned(init, now)
    ensures Pruned(xs + (init + [last]), now) == Pruned(xs, now) + Pruned(init + [last], now)
  {
    Associate(xs, init, [last]);
    PrunedNext(xs + (init + [last]), xs + init, last, now);
    PrunedNext(init + [last], init, last, now);
    Associate(Pruned(xs, now), Pruned(init, now), if now - last.time < 300_000 then [last] else []);
  }

  function Find(slots: Slots, key: string): (r: int)
    ensures r == -1 || (0 <= r < |slots| && slots[r].key == key)
    ensures r == -1 ==> forall i | 0 <= i < |slots| :: slots[i].key != key
  {
    if slots == [] then -1
    else if slots[0].key == key then 0
    else var r := Find(slots[1..], key); if r == -1 then -1 else r + 1
  }

  /** `Map.set`: an existing key keeps its position. */
  function Put(slots: Slots, slot: Slot): Slots {
    var i := Find(slots, slot.key);
    if i == -1 then slots + [slot] else slots[i := slot]
  }

  /** `cacheAndReturn`: prune, drop the oldest slot if a new key finds the cache full, store. */
  function Stored(slots: Slots, slot: Slot): Slots {
    var pruned := Pruned(slots, slot.time);
    var room := if Find(pruned, slot.key) == -1 && |pruned| >= CACHE_MAX_ENTRIES then pruned[1..] else pruned;
    Put(room, slot)
  }

  /** A new list takes the place of the fresh one under its key; under a new key it comes last, and the first of a
      hundred fresh slots makes room. */
  lemma StoredMeans(slots: Slots, slot: Slot, i: nat)
    ensures var fresh1 := Pruned(slots, slot.time);
            && (i < |fresh1| && fresh1[i].key == slot.key && (forall j | 0 <= j < i :: fresh1[j].key != slot.key) ==>
                  Stored(slots, slot) == fresh1[i := slot])
            && ((forall j | 0 <= j < |fresh1| :: fresh1[j].key != slot.key) ==>
                  Stored(slots, slot) == (if |fresh1| < 100 then fresh1 else fresh1[1..]) + [slot])
  {
    var fresh1 := Pruned(slots, slot.time);
    if i < |fresh1| && fresh1[i].key == slot.key && forall j | 0 <= j < i :: fresh1[j].key != slot.key {
      FindIs(fresh1, slot.key, i);
    }
    if |fresh1| >= 100 && Find(fresh1, slot.key) == -1 {
      assert Find(fresh1[1..], slot.key) == -1;
    }
  }

  lemma {:induction false} FindIs(slots: Slots, key: string, i: nat)
    requires i < |slots| && slots[i].key == key && forall j | 0 <= j < i :: slots[j].key != key
    ensures Find(slots, key) == i
  {
    if i > 0 {
      FindIs(slots[1..], key, i - 1);
    }
  }

  ghost predicate WellKept(slots: Slots) {
    && |slots| <= CACHE_MAX_ENTRIES
    && forall i, j | 0 <= i < j < |slots| :: slots[i].key != slots[j].key
  }

  lemma {:induction false} PrunedWellKept(slots: Slots, now: int)
    requires WellKept(slots)
    ensures WellKept(Pruned(slots, now))
  {
    if slots != [] {
      var init, last := slots[..|slots| - 1], slots[|slots| - 1];
      PrunedWellKept(init, now);
      forall i | 0 <= i < |Pruned(init, now)| ensures Pruned(init, now)[i].key != last.key {
        assert Pruned(init, now)[i] in Pruned(init, now);
      }
    }
  }

  /** Storing keeps the cache within its bound and loses no fresh slot of another key, except the oldest one when a new
      key finds the cache full. */
  lemma StoredKeeps(slots: Slots, slot: Slot, s: Slot)
    requires WellKept(slots)
    ensures WellKept(Stored(slots, slot))
    ensures slot in Stored(slots, slot)
    ensures s in Stored(slots, slot) ==> s == slot || (s in slots && s.key != slot.key)
    ensures s in slots && s.key != slot.key && Fresh(s, slot.time) ==>
              var pruned := Pruned(slots, slot.time);
              || s in Stored(slots, slot)
              || (|pruned| == CACHE_MAX_ENTRIES && s == pruned[0] && Find(pruned, slot.key) == -1)
  {
    PrunedWellKept(slots, slot.time);
    var pruned := Pruned(slots, slot.time);
    var room := if Find(pruned, slot.key) == -1 && |pruned| >= CACHE_MAX_ENTRIES then pruned[1..] else pruned;
    assert s in pruned ==> s == pruned[0] || s in pruned[1..];
    PutHas(room, slot, s);
  }

  lemma PutHas(room: Slots, slot: Slot, s: Slot)
    ensures slot in Put(room, slot)
    ensures s in room && s.key != slot.key ==> s in Put(room, slot)
    ensures s in Put(room, slot) ==> s == slot || s in room
  {
    var i, r := Find(room, slot.key), Put(room, slot);
    assert r[if i == -1 then |room| else i] == slot;
    if s in room && s.key != slot.key {
      var j :| 0 <= j < |room| && room[j] == s;
      assert r[j] == s;
    }
    if s in r && s != slot {
      var j :| 0 <= j < |r| && r[j] == s;
      assert s == room[j];
    }
  }

  class ModelCache {
    var slots: Slots

    constructor ()
      ensures slots == []
    {
      slots := [];
    }

    /** The deletion loop over the entries. */
    method PruneExpired(now: int)
      modifies this
      ensures slots == Pruned(old(slots), now)
    {
      var kept: Slots := [];
      for i := 0 to |slots|
        invariant slots == old(slots)
        invariant kept == Pruned(slots[..i], now)
      {
        assert slots[..i + 1][..i] == slots[..i];
        if !(now - slots[i].time >= CACHE_TTL) {
          kept := kept + [slots[i]];
        }
      }
      assert slots[..|slots|] == slots;
      slots := kept;
    }

    method CacheAndReturn(key: string, models: seq<Model>, now: int, caller: nat) returns (r: seq<Model>)
      modifies this
      ensures slots == Stored(old(slots), Slot(key, models, now, caller)) && r == models
    {
      PruneExpired(now);
      var index := Find(slots, key);
      if index == -1 && |slots| >= CACHE_MAX_ENTRIES {
        slots := slots[1..];
        index := Find(slots, key);
      }
      var slot := Slot(key, models, now, caller);
      if index == -1 {
        slots := slots + [slot];
      } else {
        slots := slots[index := slot];
      }
      return models;
    }

    /** The synchronous start of a call: a hit, or nothing and the call goes on to fetch. */
    method Lookup(token: string, now: int) returns (hit: Option<seq<Model>>)
      modifies this
      ensures slots == Pruned(old(slots), now)
      ensures var i := Find(slots, Trim(token)); hit == if i == -1 then None else Some(slots[i].models)
    {
      PruneExpired(now);
      var i := Find(slots, Trim(token));
      if i == -1 {
        return None;
      }
      return Some(slots[i].models);
    }
  }

  // ----- overlapping calls

  /** A call that fetches: its trimmed token, whether that token was answered with a 401, and its list once it ended. */
  datatype Call = Call(token: string, rejected: bool, answer: Option<seq<Model>>)

  datatype System = System(slots: Slots, calls: seq<Call>)

  datatype Step =
    | Start(token: string, now: int)
    | Reject(id: nat)
    | Finish(id: nat, outcome: Outcome, now: int)

  predicate Running(s: System, id: nat) {
    id < |s.calls| && s.calls[id].answer.None?
  }

  /** The key under which a call stores its list. */
  function EffectiveKey(c: Call): string {
    if c.rejected then "" else c.token
  }

  function HitOf(s: System, token: string, now: int): Option<Slot> {
    var pruned := Pruned(s.slots, now);
    var i := Find(pruned, Trim(token));
    if i == -1 then None else Some(pruned[i])
  }

  function Act(catalog: seq<Model>, s: System, step: Step): System {
    match step
    case Start(token, now) =>
      System(Pruned(s.slots, now),
             if HitOf(s, token, now).Some? then s.calls else s.calls + [Call(Trim(token), false, None)])
    case Reject(id) =>
      if Running(s, id) && s.calls[id].token != "" then
        s.(calls := s.calls[id := s.calls[id].(rejected := true)])
      else
        s
    case Finish(id, outcome, now) =>
      if !Running(s, id) then s else
        var models := ModelsOf(catalog, outcome);
        System(Stored(s.slots, Slot(EffectiveKey(s.calls[id]), models, now, id)),
               s.calls[id := s.calls[id].(answer := Some(models))])
  }

  /** Any interleaving of starts, rejected first requests and ends of calls. */
  function Run(catalog: seq<Model>, steps: seq<Step>): System {
    After((s, step) => Act(catalog, s, step), System([], []), steps)
  }

  /** One call from start to end: without a hit it fetches, its answer is made from the last response, and it is stored
      under its trimmed token, or under the empty one if its token was rejected. */
  lemma LifeOfCall(catalog: seq<Model>, s: System, token: string, now: int, rejected: bool, outcome: Outcome,
                   later: int)
    requires HitOf(s, token, now).None?
    ensures var id := |s.calls|;
            var started := Act(catalog, s, Start(token, now));
            var asked := if rejected then Act(catalog, started, Reject(id)) else started;
            var ended := Act(catalog, asked, Finish(id, outcome, later));
            var models := ModelsOf(catalog, outcome);
            && |ended.calls| == id + 1 && ended.calls[id].answer == Some(models) && ended.calls[..id] == s.calls
            && Slot(if rejected then "" else Trim(token), models, later, id) in ended.slots
  {
    var id := |s.calls|;
    var started := Act(catalog, s, Start(token, now));
    assert started.calls[id] == Call(Trim(token), false, None) && started.calls[..id] == s.calls;
    var asked := if rejected then Act(catalog, started, Reject(id)) else started;
    assert asked.calls == s.calls + [Call(Trim(token), rejected && Trim(token) != "", None)];
    FinishedCall(catalog, asked, id, outcome, later);
  }

  lemma FinishedCall(catalog: seq<Model>, s: System, id: nat, outcome: Outcome, now: int)
    requires Running(s, id)
    ensures var ended, models := Act(catalog, s, Finish(id, outcome, now)), ModelsOf(catalog, outcome);
            && ended.calls == s.calls[id := s.calls[id].(answer := Some(models))]
            && Slot(EffectiveKey(s.calls[id]), models, now, id) in ended.slots
  {
    JustStored(s.slots, Slot(EffectiveKey(s.calls[id]), ModelsOf(catalog, outcome), now, id));
  }

  lemma JustStored(slots: Slots, slot: Slot)
    ensures slot in Stored(slots, slot)
  {
    var pruned := Pruned(slots, slot.time);
    PutHas(if Find(pruned, slot.key) == -1 && |pruned| >= CACHE_MAX_ENTRIES then pruned[1..] else pruned, slot, slot);
  }

  /** A slot is the answer of the call that stored it, under that call's effective key. */
  ghost predicate SlotHolds(s: System, slot: Slot) {
    && slot.caller < |s.calls|
    && s.calls[slot.caller].answer == Some(slot.models)
    && slot.key == EffectiveKey(s.calls[slot.caller])
  }

  ghost predicate Inv(s: System) {
    && WellKept(s.slots)
    && (forall slot | slot in s.slots :: SlotHolds(s, slot))
    && (forall i | 0 <= i < |s.calls| && s.calls[i].answer.Some? :: ValidList(s.calls[i].answer.value))
    && (forall i | 0 <= i < |s.calls| && s.calls[i].rejected :: s.calls[i].token != "")
  }

  lemma StartKeepsInv(catalog: seq<Model>, s: System, token: string, now: int)
    requires Inv(s)
    ensures Inv(Act(catalog, s, Start(token, now)))
  {
    var t := Act(catalog, s, Start(token, now));
    PrunedWellKept(s.slots, now);
    assert forall i | 0 <= i < |s.calls| :: t.calls[i] == s.calls[i];
    forall slot | slot in t.slots ensures SlotHolds(t, slot) {
      assert SlotHolds(s, slot);
    }
  }

  lemma RejectKeepsInv(catalog: seq<Model>, s: System, id: nat)
    requires Inv(s)
    ensures Inv(Act(catalog, s, Reject(id)))
  {
    var t := Act(catalog, s, Reject(id));
    forall slot | slot in t.slots ensures SlotHolds(t, slot) {
      assert SlotHolds(s, slot);
    }
  }

  lemma FinishKeepsInv(catalog: seq<Model>, s: System, id: nat, outcome: Outcome, now: int)
    requires ValidList(catalog) && Inv(s) && Running(s, id)
    ensures Inv(Act(catalog, s, Finish(id, outcome, now)))
  {
    var models := ModelsOf(catalog, outcome);
    ModelsOfValid(catalog, outcome);
    FinishedKeepsInv(s, id, models, Slot(EffectiveKey(s.calls[id]), models, now, id));
  }

  lemma FinishedKeepsInv(s: System, id: nat, models: seq<Model>, mine: Slot)
    requires ValidList(models) && Inv(s) && Running(s, id)
    requires mine.key == EffectiveKey(s.calls[id]) && mine.models == models && mine.caller == id
    ensures Inv(System(Stored(s.slots, mine), s.calls[id := s.calls[id].(answer := Some(models))]))
  {
    var t := System(Stored(s.slots, mine), s.calls[id := s.calls[id].(answer := Some(models))]);
    StoredKeeps(s.slots, mine, mine);
    forall slot | slot in t.slots ensures SlotHolds(t, slot) {
      StoredKeeps(s.slots, mine, slot);
      assert slot != mine ==> SlotHolds(s, slot);
    }
  }

  lemma ActKeepsInv(catalog: seq<Model>, s: System, step: Step)
    requires ValidList(catalog) && Inv(s)
    ensures Inv(Act(catalog, s, step))
  {
    match step
    case Start(token, now) => StartKeepsInv(catalog, s, token, now);
    case Reject(id) => RejectKeepsInv(catalog, s, id);
    case Finish(id, outcome, now) =>
      if Running(s, id) {
        FinishKeepsInv(catalog, s, id, outcome, now);
      }
  }

  lemma RunKeepsInv(catalog: seq<Model>, steps: seq<Step>)
    requires ValidList(catalog)
    ensures Inv(Run(catalog, steps))
  {
    var fact, allowed := s => Inv(s), (step: Step) => true;
    var act := (s, step) => Act(catalog, s, step);
    forall s, step | fact(s) && allowed(step) ensures fact(act(s, step)) {
      ActKeepsInv(catalog, s, step);
    }
    AlwaysHolds(act, System([], []), steps, fact, allowed);
  }

  /** In every reachable state the cache is within its bound, and a list stored under a non-empty token comes from a
      call with that token that was never answered with a 401. */
  lemma CacheIsSound(catalog: seq<Model>, steps: seq<Step>, slot: Slot)
    requires ValidList(catalog) && slot in Run(catalog, steps).slots
    ensures var s := Run(catalog, steps);
            && |s.slots| <= CACHE_MAX_ENTRIES
            && ValidList(slot.models)
            && slot.caller < |s.calls|
            && (slot.key != "" ==> s.calls[slot.caller].token == slot.key && !s.calls[slot.caller].rejected)
            && (slot.key == "" ==> s.calls[slot.caller].token == "" || s.calls[slot.caller].rejected)
  {
    RunKeepsInv(catalog, steps);
    assert SlotHolds(Run(catalog, steps), slot);
  }

  /** In every reachable state a call hits exactly the slot under its trimmed token that is less than five minutes
      old. */
  lemma HitIff(catalog: seq<Model>, steps: seq<Step>, token: string, now: int, slot: Slot)
    requires ValidList(catalog)
    ensures HitOf(Run(catalog, steps), token, now) == Some(slot) <==>
            slot in Run(catalog, steps).slots && slot.key == Trim(token) && now - slot.time < 300_000
  {
    RunKeepsInv(catalog, steps);
    var s := Run(catalog, steps);
    FindInKept(s.slots, Trim(token), now, slot);
  }

  lemma FindInKept(slots: Slots, key: string, now: int, slot: Slot)
    requires WellKept(slots)
    ensures var pruned := Pruned(slots, now);
            Find(pruned, key) != -1 && pruned[Find(pruned, key)] == slot <==>
            slot in slots && slot.key == key && now - slot.time < 300_000
  {
    PrunedWellKept(slots, now);
    var pruned := Pruned(slots, now);
    if slot in pruned && slot.key == key {
      var i :| 0 <= i < |pruned| && pruned[i] == slot;
      FindIs(pruned, key, i);
    }
  }

  /** A hit is younger than the time limit and is the answer that an earlier call for the same effective key got. */
  lemma HitIsFresh(catalog: seq<Model>, steps: seq<Step>, token: string, now: int)
    requires ValidList(catalog) && HitOf(Run(catalog, steps), token, now).Some?
    ensures var s := Run(catalog, steps);
            var hit := HitOf(s, token, now).value;
            && now - hit.time < CACHE_TTL
            && hit in s.slots && hit.caller < |s.calls|
            && s.calls[hit.caller].answer == Some(hit.models)
            && EffectiveKey(s.calls[hit.caller]) == Trim(token)
  {
    RunKeepsInv(catalog, steps);
    var s := Run(catalog, steps);
    var hit := HitOf(s, token, now).value;
    assert hit in Pruned(s.slots, now);
    assert SlotHolds(s, hit);
  }
}
