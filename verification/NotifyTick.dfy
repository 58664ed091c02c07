/** One poll of the pairing notifier and the subscription commands, on a state object that they update in place. */
module NotifyTick {
  import opened Common
  import opened NotifyState

  const MAX_SEEN_AGE_MS := 24 * 60 * 60 * 1000

  datatype Request = Request(requestId: string, ts: Option<real>)

  /** A successful send: which pending request went to which subscriber of the state that was read. */
  datatype Delivery = Delivery(request: nat, subscriber: nat)

  /** Whether a send succeeds, for a request and a subscriber position. */
  type Sender = (nat, nat) -> bool

  function RequestTimestamp(request: Request): Option<int> {
    if request.ts.None? then None
    else if Trunc(request.ts.value) > 0 then Some(Trunc(request.ts.value)) else None
  }

  predicate ShouldNotify(subscriber: Subscription, request: Request) {
    subscriber.mode != Once ||
    (RequestTimestamp(request).Some? && RequestTimestamp(request).value >= subscriber.addedAtMs)
  }

  function PendingIds(pending: seq<Request>): set<string> {
    set r | r in pending :: r.requestId
  }

  predicate StaysSeen(ids: set<string>, now: int, id: string, ts: int) {
    id in ids && now - ts <= MAX_SEEN_AGE_MS
  }

  function Pruned(notified: map<string, int>, ids: set<string>, now: int): map<string, int> {
    map id | id in notified && StaysSeen(ids, now, id, notified[id]) :: notified[id]
  }

  /** The guard reads the stored time as a truth value, so a time of zero counts as unseen. */
  predicate Seen(notified: map<string, int>, id: string) {
    id in notified && notified[id] != 0
  }

  /** The subscribers, among the first `n`, to which a request is sent successfully. */
  function Round(subscribers: seq<Subscription>, request: Request, k: nat, n: nat, send: Sender): (hits: seq<Delivery>)
    requires n <= |subscribers|
    ensures forall d :: d in hits <==>
              d.request == k && d.subscriber < n && ShouldNotify(subscribers[d.subscriber], request)
                  && send(k, d.subscriber)
  {
    if n == 0 then [] else
      var hits := Round(subscribers, request, k, n - 1, send);
      if ShouldNotify(subscribers[n - 1], request) && send(k, n - 1) then hits + [Delivery(k, n - 1)] else hits
  }

  datatype Progress = Progress(notified: map<string, int>, deliveries: seq<Delivery>)

  /** After the first `k` pending requests. */
  function Announced(subscribers: seq<Subscription>, pending: seq<Request>, k: nat, now: int, send: Sender,
                     notified: map<string, int>): Progress
    requires k <= |pending|
  {
    if k == 0 then Progress(notified, []) else
      var before := Announced(subscribers, pending, k - 1, now, send, notified);
      var id := pending[k - 1].requestId;
      if Seen(before.notified, id) then before else
        var hits := Round(subscribers, pending[k - 1], k - 1, |subscribers|, send);
        Progress(if hits != [] then before.notified[id := now] else before.notified, before.deliveries + hits)
  }

  function SpentKeys(subscribers: seq<Subscription>, deliveries: seq<Delivery>): set<string> {
    set d | d in deliveries && d.subscriber < |subscribers| && subscribers[d.subscriber].mode == Once ::
      Key(subscribers[d.subscriber].target)
  }

  function Without(subscribers: seq<Subscription>, keys: set<string>): seq<Subscription> {
    if subscribers == [] then [] else
      var last := subscribers[|subscribers| - 1];
      Without(subscribers[..|subscribers| - 1], keys) + if Key(last.target) in keys then [] else [last]
  }

  datatype Tick = Tick(state: State, deliveries: seq<Delivery>)

  /** What one poll computes from the state it read. */
  function Polled(state: State, pending: seq<Request>, now: int, send: Sender): Tick {
    var pruned := Pruned(state.notified, PendingIds(pending), now);
    var done := Announced(state.subscribers, pending, |pending|, now, send, pruned);
    var kept := Without(state.subscribers, SpentKeys(state.subscribers, done.deliveries));
    Tick(State(kept, done.notified), done.deliveries)
  }

  datatype Command = On | Off | Arm | Status

  function Commanded(state: State, target: Target, command: Command, now: int): State {
    match command
    case On => state.(subscribers := Upserted(state.subscribers, target, Persistent, now))
    case Arm => state.(subscribers := Upserted(state.subscribers, target, Once, now))
    case Off => state.(subscribers := RemovedKey(state.subscribers, Key(target)))
    case Status => state
  }

  class StateFile {
    var subscribers: seq<Subscription>
    var notified: map<string, int>

    constructor (state: State)
      ensures View() == state
    {
      subscribers := state.subscribers;
      notified := state.notified;
    }

    ghost function View(): State
      reads this
    {
      State(subscribers, notified)
    }

    /** `upsertNotifySubscriber`; the result says whether the list changed. */
    method Upsert(target: Target, mode: Mode, now: int) returns (changed: bool)
      modifies this`subscribers
      ensures subscribers == Upserted(old(subscribers), target, mode, now)
      ensures changed <==> subscribers != old(subscribers)
    {
      var index := FindKey(subscribers, Key(target));
      var next := Subscription(target, mode, now);
      if index == -1 {
        subscribers := subscribers + [next];
        return true;
      }
      if subscribers[index].mode == mode {
        return false;
      }
      subscribers := subscribers[index := next];
      return true;
    }

    /** The state changes of the notify command; the result says whether the file is written. */
    method HandleCommand(target: Target, command: Command, now: int) returns (changed: bool)
      modifies this`subscribers
      ensures View() == Commanded(old(View()), target, command, now)
      ensures changed <==> View() != old(View())
    {
      match command
      case On => changed := Upsert(target, Persistent, now);
      case Arm => changed := Upsert(target, Once, now);
      case Off =>
        var index := FindKey(subscribers, Key(target));
        changed := index != -1;
        if changed {
          subscribers := subscribers[..index] + subscribers[index + 1..];
        }
      case Status => changed := false;
    }

    /** The deletion loop at the start of a poll. */
    method PruneSeen(ids: set<string>, now: int) returns (changed: bool)
      modifies this`notified
      ensures notified == Pruned(old(notified), ids, now)
      ensures changed <==> notified != old(notified)
    {
      changed := false;
      var todo := notified.Keys;
      while todo != {}
        invariant todo <= old(notified).Keys
        invariant notified ==
                  map id | id in old(notified) && (id in todo || StaysSeen(ids, now, id, old(notified)[id])) ::
                    old(notified)[id]
        invariant changed <==> notified != old(notified)
        decreases todo
      {
        var id :| id in todo;
        todo := todo - {id};
        if id !in ids || now - notified[id] > MAX_SEEN_AGE_MS {
          notified := notified - {id};
          changed := true;
        }
      }
    }

    /** The send loop for one request. */
    method Announce(request: Request, k: nat, send: Sender) returns (hits: seq<Delivery>)
      ensures hits == Round(subscribers, request, k, |subscribers|, send)
    {
      hits := [];
      for j := 0 to |subscribers|
        invariant hits == Round(subscribers, request, k, j, send)
      {
        if !ShouldNotify(subscribers[j], request) {
          continue;
        }
        if send(k, j) {
          hits := hits + [Delivery(k, j)];
        }
      }
    }

    /** The loop over the pending requests. */
    method AnnounceAll(pending: seq<Request>, now: int, send: Sender)
      returns (delivered: bool, deliveries: seq<Delivery>)
      modifies this`notified
      ensures Progress(notified, deliveries) == Announced(subscribers, pending, |pending|, now, send, old(notified))
      ensures delivered <==> deliveries != []
    {
      delivered, deliveries := false, [];
      for k := 0 to |pending|
        invariant Progress(notified, deliveries) == Announced(subscribers, pending, k, now, send, old(notified))
        invariant delivered <==> deliveries != []
      {
        if Seen(notified, pending[k].requestId) {
          continue;
        }
        var hits := Announce(pending[k], k, send);
        deliveries := deliveries + hits;
        if hits != [] {
          notified := notified[pending[k].requestId := now];
          delivered := true;
        }
      }
    }

    /** The filter at the end: one-shot subscriptions that were delivered go. */
    method DropSpent(deliveries: seq<Delivery>) returns (changed: bool)
      modifies this`subscribers
      ensures subscribers == Without(old(subscribers), SpentKeys(old(subscribers), deliveries))
      ensures changed ==> subscribers != old(subscribers)
    {
      var spent := SpentKeys(subscribers, deliveries);
      if spent == {} {
        WithoutNone(subscribers);
        return false;
      }
      var kept := Filter(subscribers, spent);
      changed := |kept| != |subscribers|;
      subscribers := kept;
    }

    /** `notifyPendingPairingRequests` between reading and writing the file; `changed` says whether it is written. */
    method Poll(pending: seq<Request>, now: int, send: Sender) returns (changed: bool, deliveries: seq<Delivery>)
      requires now > 0
      modifies this
      ensures Tick(View(), deliveries) == Polled(old(View()), pending, now, send)
      ensures changed <==> View() != old(View())
    {
      var pruned := PruneSeen(PendingIds(pending), now);
      changed, deliveries := pruned, [];
      if |subscribers| > 0 {
        var delivered;
        delivered, deliveries := AnnounceAll(pending, now, send);
        var dropped := DropSpent(deliveries);
        changed := changed || delivered || dropped;
      } else {
        NobodyToTell(pending, |pending|, now, send, notified);
      }
      PollChanges(old(View()), pending, now, send);
    }
  }

  method Filter(subscribers: seq<Subscription>, keys: set<string>) returns (kept: seq<Subscription>)
    ensures kept == Without(subscribers, keys)
  {
    kept := [];
    for i := 0 to |subscribers|
      invariant kept == Without(subscribers[..i], keys)
    {
      assert subscribers[..i + 1][..i] == subscribers[..i];
      if Key(subscribers[i].target) !in keys {
        kept := kept + [subscribers[i]];
      }
    }
    assert subscribers[..|subscribers|] == subscribers;
  }

  lemma {:induction false} WithoutNone(subscribers: seq<Subscription>)
    ensures Without(subscribers, {}) == subscribers
  {
    if subscribers != [] {
      WithoutNone(subscribers[..|subscribers| - 1]);
    }
  }

  lemma {:induction false} NobodyToTell(pending: seq<Request>, k: nat, now: int, send: Sender,
                                        notified: map<string, int>)
    requires k <= |pending|
    ensures Announced([], pending, k, now, send, notified) == Progress(notified, [])
  {
    if k > 0 {
      NobodyToTell(pending, k - 1, now, send, notified);
    }
  }

  /** The dirty flag: a poll that prunes or delivers ends in a different state, and any other poll in the same one. */
  lemma PollChanges(state: State, pending: seq<Request>, now: int, send: Sender)
    requires now > 0
    ensures var tick := Polled(state, pending, now, send);
            tick.state != state
            <==> Pruned(state.notified, PendingIds(pending), now) != state.notified || tick.deliveries != []
  {
    var pruned := Pruned(state.notified, PendingIds(pending), now);
    var done := Announced(state.subscribers, pending, |pending|, now, send, pruned);
    if done.deliveries == [] {
      NothingDelivered(state.subscribers, pending, |pending|, now, send, pruned);
      assert SpentKeys(state.subscribers, done.deliveries) == {};
      WithoutNone(state.subscribers);
    } else {
      var d := done.deliveries[0];
      DeliveriesAreSends(state.subscribers, pending, |pending|, now, send, pruned, d);
      var id := pending[d.request].requestId;
      assert Delivered(pending, done.deliveries, id);
      AnnouncedSeen(state.subscribers, pending, |pending|, now, send, pruned, id);
      assert done.notified[id] == now;
      assert pending[d.request] in pending && !Seen(pruned, id);
      assert StaysSeen(PendingIds(pending), now, id, now);
    }
  }

  lemma {:induction false} NothingDelivered(subscribers: seq<Subscription>, pending: seq<Request>, k: nat, now: int,
                                            send: Sender, notified: map<string, int>)
    requires k <= |pending| && Announced(subscribers, pending, k, now, send, notified).deliveries == []
    ensures Announced(subscribers, pending, k, now, send, notified).notified == notified
  {
    if k > 0 {
      NothingDelivered(subscribers, pending, k - 1, now, send, notified);
    }
  }

  // ----- which subscribers a poll keeps

  function OfMode(subscribers: seq<Subscription>, mode: Mode): seq<Subscription> {
    if subscribers == [] then [] else
      var last := subscribers[|subscribers| - 1];
      OfMode(subscribers[..|subscribers| - 1], mode) + if last.mode == mode then [last] else []
  }

  ghost predicate KeepsMode(subscribers: seq<Subscription>, keys: set<string>, mode: Mode) {
    forall i | 0 <= i < |subscribers| && subscribers[i].mode == mode :: Key(subscribers[i].target) !in keys
  }

  lemma {:induction false} OfModeWithout(subscribers: seq<Subscription>, keys: set<string>, mode: Mode)
    ensures |OfMode(Without(subscribers, keys), mode)| <= |OfMode(subscribers, mode)|
    ensures OfMode(Without(subscribers, keys), mode) == OfMode(subscribers, mode)
            <==> KeepsMode(subscribers, keys, mode)
  {
    if subscribers != [] {
      var init, last := subscribers[..|subscribers| - 1], subscribers[|subscribers| - 1];
      OfModeWithout(init, keys, mode);
      var kept, modes := Without(init, keys), OfMode(init, mode);
      if Key(last.target) !in keys {
        assert (kept + [last])[..|kept|] == kept;
      } else {
        assert kept + [] == kept;
      }
      assert (modes + [last])[..|modes|] == modes && modes + [] == modes;
      var keptModes := OfMode(kept, mode);
      assert (keptModes + [last])[..|keptModes|] == keptModes && keptModes + [] == keptModes;
      assert forall i | 0 <= i < |init| :: init[i] == subscribers[i];
      assert KeepsMode(subscribers, keys, mode)
          <==> KeepsMode(init, keys, mode) && (last.mode == mode ==> Key(last.target) !in keys);
    }
  }

  lemma {:induction false} WithoutHas(subscribers: seq<Subscription>, keys: set<string>, s: Subscription)
    ensures s in Without(subscribers, keys) <==> s in subscribers && Key(s.target) !in keys
  {
    if subscribers != [] {
      WithoutHas(subscribers[..|subscribers| - 1], keys, s);
      assert s in subscribers <==> s in subscribers[..|subscribers| - 1] || s == subscribers[|subscribers| - 1];
    }
  }

  /** With distinct keys a poll neither removes nor reorders a persistent subscriber. */
  lemma PollKeepsPersistent(state: State, pending: seq<Request>, now: int, send: Sender)
    requires KeysDistinct(state.subscribers)
    ensures OfMode(Polled(state, pending, now, send).state.subscribers, Persistent)
            == OfMode(state.subscribers, Persistent)
  {
    var spent := SpentKeys(state.subscribers, Polled(state, pending, now, send).deliveries);
    SpentAreOneShot(state.subscribers, Polled(state, pending, now, send).deliveries);
    OfModeWithout(state.subscribers, spent, Persistent);
  }

  lemma SpentAreOneShot(subscribers: seq<Subscription>, deliveries: seq<Delivery>)
    requires KeysDistinct(subscribers)
    ensures KeepsMode(subscribers, SpentKeys(subscribers, deliveries), Persistent)
  {
    forall i | 0 <= i < |subscribers| && subscribers[i].mode == Persistent
      ensures Key(subscribers[i].target) !in SpentKeys(subscribers, deliveries)
    {
      assert forall d | d in deliveries && d.subscriber < |subscribers| && subscribers[d.subscriber].mode == Once ::
          d.subscriber < i || i < d.subscriber;
    }
  }

  /** A successful send to a one-shot subscriber is for a request created at or after arming, and the same poll
      removes every subscriber with its key. */
  lemma OneShotSpent(state: State, pending: seq<Request>, now: int, send: Sender, d: Delivery)
    requires d in Polled(state, pending, now, send).deliveries
    ensures d.request < |pending| && d.subscriber < |state.subscribers|
    ensures var s := state.subscribers[d.subscriber];
            s.mode == Once ==>
              && RequestTimestamp(pending[d.request]).Some? && RequestTimestamp(pending[d.request]).value >= s.addedAtMs
              && forall left | left in Polled(state, pending, now, send).state.subscribers ::
                   Key(left.target) != Key(s.target)
  {
    var pruned := Pruned(state.notified, PendingIds(pending), now);
    DeliveriesAreSends(state.subscribers, pending, |pending|, now, send, pruned, d);
    var tick := Polled(state, pending, now, send);
    forall left | left in tick.state.subscribers
      ensures left in state.subscribers && Key(left.target) !in SpentKeys(state.subscribers, tick.deliveries)
    {
      WithoutHas(state.subscribers, SpentKeys(state.subscribers, tick.deliveries), left);
    }
  }

  // ----- what one poll does

  /** Some send for the id succeeded in the poll. */
  ghost predicate Delivered(pending: seq<Request>, deliveries: seq<Delivery>, id: string) {
    exists d :: d in deliveries && d.request < |pending| && pending[d.request].requestId == id
  }

  /** A delivery goes to a subscriber of the state for a pending request it should hear about, through a send that
      succeeded. */
  lemma {:induction false} DeliveriesAreSends(subscribers: seq<Subscription>, pending: seq<Request>, k: nat, now: int,
                                              send: Sender, notified: map<string, int>, d: Delivery)
    requires k <= |pending| && d in Announced(subscribers, pending, k, now, send, notified).deliveries
    ensures d.request < k && d.subscriber < |subscribers|
    ensures ShouldNotify(subscribers[d.subscriber], pending[d.request]) && send(d.request, d.subscriber)
  {
    if k > 0 && d in Announced(subscribers, pending, k - 1, now, send, notified).deliveries {
      DeliveriesAreSends(subscribers, pending, k - 1, now, send, notified, d);
    }
  }

  /** The seen-map against its start: an id that was seen is left alone and not sent; any other id is stamped with
      the current time exactly when it is delivered. */
  ghost predicate SeenFacts(notified: map<string, int>, pending: seq<Request>, now: int, r: Progress, id: string) {
    && r.notified.Keys <= notified.Keys + PendingIds(pending)
    && (Seen(notified, id) ==>
          !Delivered(pending, r.deliveries, id) && id in r.notified && r.notified[id] == notified[id])
    && (!Seen(notified, id) && Delivered(pending, r.deliveries, id) ==> id in r.notified && r.notified[id] == now)
    && (!Delivered(pending, r.deliveries, id) ==>
          (id in r.notified <==> id in notified) && (id in notified ==> r.notified[id] == notified[id]))
  }

  lemma {:induction false} AnnouncedSeen(subscribers: seq<Subscription>, pending: seq<Request>, k: nat, now: int,
                                         send: Sender, notified: map<string, int>, id: string)
    requires k <= |pending| && now > 0
    ensures SeenFacts(notified, pending, now, Announced(subscribers, pending, k, now, send, notified), id)
  {
    if k > 0 {
      AnnouncedSeen(subscribers, pending, k - 1, now, send, notified, id);
      var before := Announced(subscribers, pending, k - 1, now, send, notified);
      var request := pending[k - 1];
      if !Seen(before.notified, request.requestId) {
        AnnounceOne(notified, pending, k - 1, now, before, Round(subscribers, request, k - 1, |subscribers|, send), id);
      }
    }
  }

  lemma AnnounceOne(notified: map<string, int>, pending: seq<Request>, k: nat, now: int, before: Progress,
                    hits: seq<Delivery>, id: string)
    requires k < |pending| && now > 0 && !Seen(before.notified, pending[k].requestId)
    requires SeenFacts(notified, pending, now, before, id) && forall d :: d in hits ==> d.request == k
    ensures SeenFacts(notified, pending, now,
              Progress(if hits != [] then before.notified[pending[k].requestId := now] else before.notified,
                  before.deliveries + hits), id)
  {
    var after := before.deliveries + hits;
    assert pending[k] in pending;
    assert forall d :: d in after <==> d in before.deliveries || d in hits;
    if hits != [] {
      assert hits[0] in after;
    }
  }

  /** Deliveries for request `k` are decided in its own turn. */
  lemma {:induction false} DecidedInTurn(subscribers: seq<Subscription>, pending: seq<Request>, k: nat, n: nat,
                                         now: int, send: Sender, notified: map<string, int>, d: Delivery)
    requires k < n <= |pending| && d.request == k
    ensures d in Announced(subscribers, pending, n, now, send, notified).deliveries
            <==> d in Announced(subscribers, pending, k + 1, now, send, notified).deliveries
  {
    if k + 1 < n {
      DecidedInTurn(subscribers, pending, k, n - 1, now, send, notified, d);
    }
  }

  lemma {:induction false} NotBeforeTurn(subscribers: seq<Subscription>, pending: seq<Request>, k: nat, now: int,
                                         send: Sender, notified: map<string, int>, d: Delivery)
    requires k <= |pending| && d.request >= k
    ensures d !in Announced(subscribers, pending, k, now, send, notified).deliveries
  {
    if k > 0 {
      NotBeforeTurn(subscribers, pending, k - 1, now, send, notified, d);
    }
  }

  /** The file says that the id was delivered at most a day before `now`. */
  predicate Remembered(notified: map<string, int>, now: int, id: string) {
    id in notified && notified[id] != 0 && now - notified[id] <= 86_400_000
  }

  /** Persistent subscribers hear of every request, one-shot ones of those stamped at or after arming. */
  predicate Hears(s: Subscription, ts: Option<real>) {
    s.mode == Persistent || (ts.Some? && ts.value >= 1.0 && ts.value >= s.addedAtMs as real)
  }

  lemma HearsIff(s: Subscription, request: Request)
    ensures ShouldNotify(s, request) <==> Hears(s, request.ts)
  {
    if request.ts.Some? {
      TruncMeans(request.ts.value, Trunc(request.ts.value));
    }
  }

  /** The poll delivers request `k` to subscriber `j` exactly when `j` should hear of it, the send succeeds, the id is
      not remembered, and no request before `k` with the same id was delivered to anyone. */
  ghost predicate DeliverTo(state: State, pending: seq<Request>, now: int, send: Sender, deliveries: seq<Delivery>,
                            k: nat, j: nat) {
    && k < |pending| && j < |state.subscribers| && Hears(state.subscribers[j], pending[k].ts) && send(k, j)
    && !Remembered(state.notified, now, pending[k].requestId)
    && forall d | d in deliveries && d.request < k :: pending[d.request].requestId != pending[k].requestId
  }

  lemma PollDelivers(state: State, pending: seq<Request>, now: int, send: Sender, k: nat, j: nat)
    requires now > 0
    ensures var deliveries := Polled(state, pending, now, send).deliveries;
            Delivery(k, j) in deliveries <==> DeliverTo(state, pending, now, send, deliveries, k, j)
  {
    var pruned := Pruned(state.notified, PendingIds(pending), now);
    if k < |pending| {
      var id := pending[k].requestId;
      var before := Announced(state.subscribers, pending, k, now, send, pruned);
      assert pending[k] in pending;
      assert Seen(pruned, id) <==> Remembered(state.notified, now, id);
      AnnouncedSeen(state.subscribers, pending, k, now, send, pruned, id);
      DecidedInTurn(state.subscribers, pending, k, |pending|, now, send, pruned, Delivery(k, j));
      NotBeforeTurn(state.subscribers, pending, k, now, send, pruned, Delivery(k, j));
      EarlierDelivered(state.subscribers, pending, k, now, send, pruned, id);
      if j < |state.subscribers| {
        HearsIff(state.subscribers[j], pending[k]);
      }
    } else {
      NotBeforeTurn(state.subscribers, pending, |pending|, now, send, pruned, Delivery(k, j));
    }
  }

  /** Whether an id was delivered before turn `k` can be read off the deliveries of the whole poll. */
  lemma EarlierDelivered(subscribers: seq<Subscription>, pending: seq<Request>, k: nat, now: int, send: Sender,
                         notified: map<string, int>, id: string)
    requires k < |pending|
    ensures var all := Announced(subscribers, pending, |pending|, now, send, notified).deliveries;
            (forall d | d in all :: d.request < |pending|)
            && (Delivered(pending, Announced(subscribers, pending, k, now, send, notified).deliveries, id)
                <==> exists d :: d in all && d.request < k && pending[d.request].requestId == id)
  {
    var all := Announced(subscribers, pending, |pending|, now, send, notified).deliveries;
    forall d | d in all ensures d.request < |pending| {
      DeliveriesAreSends(subscribers, pending, |pending|, now, send, notified, d);
    }
    forall d
      ensures d in Announced(subscribers, pending, k, now, send, notified).deliveries <==> d in all && d.request < k
    {
      if d.request < k {
        DecidedInTurn(subscribers, pending, d.request, |pending|, now, send, notified, d);
        DecidedInTurn(subscribers, pending, d.request, k, now, send, notified, d);
      } else {
        NotBeforeTurn(subscribers, pending, k, now, send, notified, d);
      }
    }
  }

  /** Request by request, and for each in the order of the subscribers. */
  ghost predicate InOrder(deliveries: seq<Delivery>) {
    forall i, j | 0 <= i < j < |deliveries| ::
      deliveries[i].request < deliveries[j].request
      || (deliveries[i].request == deliveries[j].request && deliveries[i].subscriber < deliveries[j].subscriber)
  }

  lemma {:induction false} RoundInOrder(subscribers: seq<Subscription>, request: Request, k: nat, n: nat, send: Sender)
    requires n <= |subscribers|
    ensures InOrder(Round(subscribers, request, k, n, send))
  {
    if n > 0 {
      RoundInOrder(subscribers, request, k, n - 1, send);
      var hits := Round(subscribers, request, k, n - 1, send);
      assert forall i | 0 <= i < |hits| :: hits[i] in hits;
    }
  }

  /** Each send happens at most once in a poll, in the order of the loops. */
  lemma {:induction false} AnnouncedInOrder(subscribers: seq<Subscription>, pending: seq<Request>, k: nat, now: int,
                                            send: Sender, notified: map<string, int>)
    requires k <= |pending|
    ensures InOrder(Announced(subscribers, pending, k, now, send, notified).deliveries)
  {
    if k > 0 {
      AnnouncedInOrder(subscribers, pending, k - 1, now, send, notified);
      RequestsBelow(subscribers, pending, k - 1, now, send, notified,
                    Announced(subscribers, pending, k - 1, now, send, notified).deliveries);
      NextInOrder(subscribers, pending, k - 1, now, send, notified,
                  Announced(subscribers, pending, k - 1, now, send, notified));
    }
  }

  lemma NextInOrder(subscribers: seq<Subscription>, pending: seq<Request>, k: nat, now: int, send: Sender,
                    notified: map<string, int>, before: Progress)
    requires k < |pending| && before == Announced(subscribers, pending, k, now, send, notified)
    requires InOrder(before.deliveries) && forall i | 0 <= i < |before.deliveries| :: before.deliveries[i].request < k
    ensures InOrder(Announced(subscribers, pending, k + 1, now, send, notified).deliveries)
  {
    RoundInOrder(subscribers, pending[k], k, |subscribers|, send);
    RoundRequests(subscribers, pending[k], k, send);
    OrderConcat(before.deliveries, Round(subscribers, pending[k], k, |subscribers|, send), k);
  }

  lemma RoundRequests(subscribers: seq<Subscription>, request: Request, k: nat, send: Sender)
    ensures var hits := Round(subscribers, request, k, |subscribers|, send);
            forall i | 0 <= i < |hits| :: hits[i].request == k
  {
    var hits := Round(subscribers, request, k, |subscribers|, send);
    assert forall i | 0 <= i < |hits| :: hits[i] in hits;
  }

  lemma RequestsBelow(subscribers: seq<Subscription>, pending: seq<Request>, k: nat, now: int, send: Sender,
                      notified: map<string, int>, before: seq<Delivery>)
    requires k <= |pending| && before == Announced(subscribers, pending, k, now, send, notified).deliveries
    ensures forall i | 0 <= i < |before| :: before[i].request < k
  {
    forall i | 0 <= i < |before| ensures before[i].request < k {
      DeliveriesAreSends(subscribers, pending, k, now, send, notified, before[i]);
    }
  }

  lemma OrderConcat(before: seq<Delivery>, hits: seq<Delivery>, k: nat)
    requires InOrder(before) && InOrder(hits)
    requires forall i | 0 <= i < |before| :: before[i].request < k
    requires forall i | 0 <= i < |hits| :: hits[i].request == k
    ensures InOrder(before + hits)
  {
  }

  /** After a poll an id is remembered exactly when the poll delivered it, then as of now, or when it is still pending
      and was remembered before for at most a day, then as before. */
  lemma PollRemembers(state: State, pending: seq<Request>, now: int, send: Sender, id: string)
    requires now > 0
    ensures var tick := Polled(state, pending, now, send);
            var kept := id in state.notified && now - state.notified[id] <= 86_400_000
                        && exists i :: 0 <= i < |pending| && pending[i].requestId == id;
            && (id in tick.state.notified <==> kept || Delivered(pending, tick.deliveries, id))
            && (id in tick.state.notified ==>
                  tick.state.notified[id] == (if Delivered(pending, tick.deliveries, id) then now
                                              else state.notified[id]))
  {
    AnnouncedSeen(state.subscribers, pending, |pending|, now, send,
                  Pruned(state.notified, PendingIds(pending), now), id);
    IsPending(pending, id);
  }

  lemma IsPending(pending: seq<Request>, id: string)
    ensures id in PendingIds(pending) <==> exists i :: 0 <= i < |pending| && pending[i].requestId == id
  {
    if id in PendingIds(pending) {
      var r :| r in pending && r.requestId == id;
      var i :| 0 <= i < |pending| && pending[i] == r;
    }
    if i :| 0 <= i < |pending| && pending[i].requestId == id {
      assert pending[i] in pending;
    }
  }

  /** A one-shot subscriber with this key was sent something. */
  ghost predicate SpentKey(subscribers: seq<Subscription>, deliveries: seq<Delivery>, key: string) {
    exists d :: d in deliveries && d.subscriber < |subscribers| && subscribers[d.subscriber].mode == Once
        && Key(subscribers[d.subscriber].target) == key
  }

  /** A poll unsubscribes exactly those whose key a one-shot delivery went to; `WithoutLaws` gives the
      order. */
  lemma PollUnsubscribes(state: State, pending: seq<Request>, now: int, send: Sender, s: Subscription)
    ensures var tick := Polled(state, pending, now, send);
            s in tick.state.subscribers <==>
            s in state.subscribers && !SpentKey(state.subscribers, tick.deliveries, Key(s.target))
  {
    var tick := Polled(state, pending, now, send);
    WithoutHas(state.subscribers, SpentKeys(state.subscribers, tick.deliveries), s);
  }

  lemma {:induction false} WithoutConcat(xs: seq<Subscription>, ys: seq<Subscription>, keys: set<string>)
    ensures Without(xs + ys, keys) == Without(xs, keys) + Without(ys, keys)
  {
    if ys == [] {
      assert xs + ys == xs;
    } else {
      WithoutConcat(xs, ys[..|ys| - 1], keys);
      assert (xs + ys)[..|xs + ys| - 1] == xs + ys[..|ys| - 1];
    }
  }

  /** What is left of a list after filtering is what is left of its parts, in order; of one entry, the entry itself
      unless its key is filtered. */
  lemma WithoutLaws(xs: seq<Subscription>, ys: seq<Subscription>, keys: set<string>, s: Subscription)
    ensures Without(xs + ys, keys) == Without(xs, keys) + Without(ys, keys)
    ensures Without([s], keys) == if Key(s.target) in keys then [] else [s]
  {
    WithoutConcat(xs, ys, keys);
    assert [s][..0] == [];
  }

  // ----- what a command does

  ghost predicate HasMode(state: State, target: Target, mode: Mode) {
    exists s :: s in state.subscribers && Key(s.target) == Key(target) && s.mode == mode
  }

  /** After a subscribing command some entry with the target's key has the mode, and any new entry is the command's
      own. */
  lemma SubscribeMeans(state: State, target: Target, command: Command, now: int, s: Subscription)
    requires command == On || command == Arm
    ensures var mode, next := if command == On then Persistent else Once, Commanded(state, target, command, now);
            && HasMode(next, target, mode)
            && (s in next.subscribers ==> s in state.subscribers || s == Subscription(target, mode, now))
  {
    var mode := if command == On then Persistent else Once;
    UpsertedMode(state.subscribers, target, mode, now);
    UpsertedOthers(state.subscribers, target, mode, now, s);
  }

  /** With distinct keys, switching off leaves exactly the entries under other keys. */
  lemma WithdrawMeans(state: State, target: Target, now: int, s: Subscription)
    requires KeysDistinct(state.subscribers)
    ensures s in Commanded(state, target, Off, now).subscribers <==>
            s in state.subscribers && Key(s.target) != Key(target)
  {
    RemovedOthers(state.subscribers, Key(target), s);
  }

  /** No command touches the entries under other keys or the remembered ids, and asking for the status changes
      nothing. */
  lemma CommandLeaves(state: State, target: Target, command: Command, now: int, s: Subscription)
    ensures Key(s.target) != Key(target) ==>
              (s in Commanded(state, target, command, now).subscribers <==> s in state.subscribers)
    ensures Commanded(state, target, command, now).notified == state.notified
    ensures command == Status ==> Commanded(state, target, command, now) == state
  {
    if Key(s.target) != Key(target) {
      CommandedOthers(state, target, command, now, s);
    }
  }

  lemma CommandedOthers(state: State, target: Target, command: Command, now: int, s: Subscription)
    requires Key(s.target) != Key(target)
    ensures s in Commanded(state, target, command, now).subscribers <==> s in state.subscribers
  {
    match command
    case On => UpsertedOthers(state.subscribers, target, Persistent, now, s);
    case Arm => UpsertedOthers(state.subscribers, target, Once, now, s);
    case Off => RemovedOthers(state.subscribers, Key(target), s);
    case Status =>
  }

  lemma UpsertedMode(subscribers: seq<Subscription>, target: Target, mode: Mode, now: int)
    ensures exists s :: s in Upserted(subscribers, target, mode, now) && Key(s.target) == Key(target) && s.mode == mode
  {
    var index, next := FindKey(subscribers, Key(target)), Upserted(subscribers, target, mode, now);
    assert next[if index == -1 then |subscribers| else index] in next;
  }

  lemma UpsertedOthers(subscribers: seq<Subscription>, target: Target, mode: Mode, now: int, s: Subscription)
    ensures s in Upserted(subscribers, target, mode, now) ==>
              s in subscribers || s == Subscription(target, mode, now)
    ensures Key(s.target) != Key(target) && s in subscribers ==> s in Upserted(subscribers, target, mode, now)
  {
    var next := Upserted(subscribers, target, mode, now);
    if Key(s.target) != Key(target) && s in subscribers {
      var i :| 0 <= i < |subscribers| && subscribers[i] == s;
      assert next[i] == s;
    }
  }

  lemma RemovedOthers(subscribers: seq<Subscription>, key: string, s: Subscription)
    ensures s in RemovedKey(subscribers, key) ==> s in subscribers
    ensures Key(s.target) != key && s in subscribers ==> s in RemovedKey(subscribers, key)
    ensures KeysDistinct(subscribers) && s in RemovedKey(subscribers, key) ==> Key(s.target) != key
  {
    var index, left := FindKey(subscribers, key), RemovedKey(subscribers, key);
    if Key(s.target) != key && s in subscribers && index != -1 {
      var i :| 0 <= i < |subscribers| && subscribers[i] == s;
      assert left[if i < index then i else i - 1] == s;
    }
    if s in left && index == -1 {
      var i :| 0 <= i < |left| && left[i] == s;
    } else if KeysDistinct(subscribers) && s in left {
      var i :| 0 <= i < |left| && left[i] == s;
      assert subscribers[if i < index then i else i + 1] == s;
    }
  }
}
