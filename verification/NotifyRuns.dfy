/** Runs of the notifier: what holds of the state file over any sequence of polls and commands. */
module NotifyRuns {
  import opened Common
  import opened NotifyState
  import opened NotifyTick
  import opened Traces

  datatype Event =
    | Poll(pending: seq<Request>, now: int, send: Sender)
    | Chat(ctx: Context, command: Command, now: int)

  function Next(state: State, event: Event): State {
    match event
    case Poll(pending, now, send) => Polled(state, pending, now, send).state
    case Chat(ctx, command, now) =>
      var target := ResolveNotifyTarget(ctx);
      if target.None? then state else Commanded(state, target.value, command, now)
  }

  // ----- steps on the file

  /** One event with the fate of its file operations; the outcome of the write counts only if there is one. */
  datatype Step = Step(event: Event, canRead: bool, write: WriteOutcome)

  const EMPTY := State([], map[])

  /** What a missing or unparsable file decodes to. */
  const NO_FILE := RawState([], map[])

  /** `readNotifyState`: a read that fails yields the empty state. */
  function StateRead(file: RawState, step: Step): State {
    if step.canRead then Read(file, step.event.now) else EMPTY
  }

  function NextState(file: RawState, step: Step): State {
    Next(StateRead(file, step), step.event)
  }

  /** The file is written exactly when the state changed. */
  predicate WritesFile(file: RawState, step: Step) {
    NextState(file, step) != StateRead(file, step)
  }

  function FileStep(file: RawState, step: Step): RawState {
    if !WritesFile(file, step) then file else
      match step.write
      case Whole => Written(NextState(file, step))
      case Torn => NO_FILE
      case Refused => file
  }

  function FileAfter(file: RawState, steps: seq<Step>): RawState {
    After(FileStep, file, steps)
  }

  function SeenIn(file: RawState): map<string, int> {
    Read(file, 0).notified
  }

  // ----- failed reads and torn writes

  /** A command that subscribes its chat. */
  predicate Enlists(event: Event) {
    event.Chat? && (event.command == On || event.command == Arm) && ResolveNotifyTarget(event.ctx).Some?
  }

  function Enlisted(event: Event): Subscription
    requires Enlists(event)
  {
    Subscription(ResolveNotifyTarget(event.ctx).value, if event.command == On then Persistent else Once, event.now)
  }

  /** From the empty state only a command that subscribes its chat leads anywhere. */
  lemma FromEmpty(event: Event)
    ensures Next(EMPTY, event) == if Enlists(event) then State([Enlisted(event)], map[]) else EMPTY
  {
    match event
    case Poll(pending, now, send) =>
      var pruned := Pruned(map[], PendingIds(pending), now);
      assert pruned == map[];
      NobodyToTell(pending, |pending|, now, send, pruned);
    case Chat(ctx, command, now) =>
      var target := ResolveNotifyTarget(ctx);
      if target.Some? {
        assert [] + [Subscription(target.value, Persistent, now)] == [Subscription(target.value, Persistent, now)];
        assert [] + [Subscription(target.value, Once, now)] == [Subscription(target.value, Once, now)];
      }
  }

  /** A step whose read fails changes nothing unless it is a command that subscribes its chat; then that subscription
      is all that the file holds afterwards. */
  lemma FailedReadStep(file: RawState, step: Step)
    requires !step.canRead
    ensures WritesFile(file, step) <==> Enlists(step.event)
    ensures !Enlists(step.event) ==> FileStep(file, step) == file
    ensures Enlists(step.event) && step.write == Whole ==>
              && FileStep(file, step) == Written(State([Enlisted(step.event)], map[]))
              && SeenIn(FileStep(file, step)) == map[]
  {
    FromEmpty(step.event);
    if Enlists(step.event) {
      ReadNotified(State([Enlisted(step.event)], map[]), 0);
      assert SeenIn(Written(State([Enlisted(step.event)], map[]))) == map[];
    }
  }

  /** The step replaces the file by something that it did not come from: its write is torn, or its read failed. */
  predicate Wipes(file: RawState, step: Step) {
    WritesFile(file, step) && (step.write == Torn || (step.write == Whole && !step.canRead))
  }

  lemma WipedSeen(file: RawState, step: Step)
    requires Wipes(file, step)
    ensures SeenIn(FileStep(file, step)) == map[]
  {
    if step.write == Whole {
      FailedReadStep(file, step);
    }
  }

  // ----- the seen-map

  /** A positive time of a non-blank id is read back from what the step writes. */
  lemma StepKeepsTime(file: RawState, step: Step, id: string, t: int)
    requires t > 0 && !IsBlank(id) && step.canRead && step.write == Whole
    ensures id in NextState(file, step).notified && NextState(file, step).notified[id] == t
            <==> Stamped(FileStep(file, step), id, t)
  {
    ReadNotified(NextState(file, step), 0);
  }

  lemma PollYoung(state: State, pending: seq<Request>, now: int, send: Sender, id: string, t: int)
    requires t > 0 && now > 0 && id in state.notified && state.notified[id] == t
    requires id in PendingIds(pending) && now - t <= MAX_SEEN_AGE_MS
    ensures var tick := Polled(state, pending, now, send);
            !Delivered(pending, tick.deliveries, id) && id in tick.state.notified && tick.state.notified[id] == t
  {
    var pruned := Pruned(state.notified, PendingIds(pending), now);
    AnnouncedSeen(state.subscribers, pending, |pending|, now, send, pruned, id);
  }

  ghost predicate Stamped(file: RawState, id: string, t: int) {
    id in SeenIn(file) && SeenIn(file)[id] == t
  }

  ghost predicate Delivers(file: RawState, step: Step, id: string)
    requires step.event.Poll?
  {
    var event := step.event;
    Delivered(event.pending, Polled(StateRead(file, step), event.pending, event.now, event.send).deliveries, id)
  }

  lemma BlindPollDeliversNothing(file: RawState, step: Step, id: string)
    requires step.event.Poll? && !step.canRead
    ensures !Delivers(file, step, id)
  {
    var pruned := Pruned(map[], PendingIds(step.event.pending), step.event.now);
    NobodyToTell(step.event.pending, |step.event.pending|, step.event.now, step.event.send, pruned);
  }

  /** After a delivery whose write goes through, the id is stamped with the time of the poll. */
  lemma DeliveryStamps(file: RawState, step: Step, id: string)
    requires step.event.Poll? && step.event.now > 0 && !IsBlank(id) && Delivers(file, step, id) && step.write == Whole
    ensures Stamped(FileStep(file, step), id, step.event.now)
  {
    if !step.canRead {
      BlindPollDeliversNothing(file, step, id);
      assert false;
    }
    var event, state := step.event, StateRead(file, step);
    var pruned := Pruned(state.notified, PendingIds(event.pending), event.now);
    AnnouncedSeen(state.subscribers, event.pending, |event.pending|, event.now, event.send, pruned, id);
    StepKeepsTime(file, step, id, event.now);
  }

  /** A stamped id that is pending is not delivered again for as long as it is young, and it keeps its stamp exactly
      when the step does not wipe the file. */
  lemma YoungStampHolds(file: RawState, step: Step, id: string, t: int)
    requires t > 0 && !IsBlank(id) && Stamped(file, id, t)
    requires KeepsStamp(step.event, id, t)
    ensures Stamped(FileStep(file, step), id, t) <==> !Wipes(file, step)
    ensures step.event.Poll? ==> !Delivers(file, step, id)
  {
    if step.canRead {
      NextYoung(StateRead(file, step), step.event, id, t);
      if step.write == Whole {
        StepKeepsTime(file, step, id, t);
      }
    } else {
      FailedReadStep(file, step);
      if step.event.Poll? {
        BlindPollDeliversNothing(file, step, id);
      }
    }
    if Wipes(file, step) {
      WipedSeen(file, step);
    }
  }

  lemma NextYoung(state: State, event: Event, id: string, t: int)
    requires t > 0 && id in state.notified && state.notified[id] == t && KeepsStamp(event, id, t)
    ensures id in Next(state, event).notified && Next(state, event).notified[id] == t
    ensures event.Poll? ==>
              !Delivered(event.pending, Polled(state, event.pending, event.now, event.send).deliveries, id)
  {
    if event.Poll? {
      PollYoung(state, event.pending, event.now, event.send, id, t);
    } else {
      CommandKeepsSeen(state, event);
    }
  }

  lemma CommandKeepsSeen(state: State, event: Event)
    requires event.Chat?
    ensures Next(state, event).notified == state.notified
  {
    var target := ResolveNotifyTarget(event.ctx);
    if target.Some? {
      CommandedSeen(state, target.value, event.command, event.now);
    }
  }

  lemma CommandedSeen(state: State, target: Target, command: Command, now: int)
    ensures Commanded(state, target, command, now).notified == state.notified
  {
  }

  /** The event is no poll, or a poll that has the id pending at most 24 hours after `t`. */
  predicate KeepsStamp(event: Event, id: string, t: int) {
    event.Poll? ==> event.now > 0 && id in PendingIds(event.pending) && event.now - t <= MAX_SEEN_AGE_MS
  }

  /** No step from `a` to before `c` wipes the file. */
  ghost predicate NoneWipes(file: RawState, steps: seq<Step>, a: int, c: nat)
    requires c <= |steps|
  {
    forall i: nat | a <= i < c :: !Wipes(FileAfter(file, steps[..i]), steps[i])
  }

  lemma StampHolds(file: RawState, steps: seq<Step>, a: nat, c: nat, id: string)
    requires a < c <= |steps| && !IsBlank(id) && steps[a].event.Poll? && steps[a].event.now > 0
    requires Delivers(FileAfter(file, steps[..a]), steps[a], id) && steps[a].write == Whole
    requires NoneWipes(file, steps, a + 1, c)
    requires forall i | a < i < c :: KeepsStamp(steps[i].event, id, steps[a].event.now)
    ensures Stamped(FileAfter(file, steps[..c]), id, steps[a].event.now)
  {
    var t := steps[a].event.now;
    var fact := (f: RawState) => Stamped(f, id, t);
    var quiet := (f: RawState, step: Step) => KeepsStamp(step.event, id, t) && !Wipes(f, step);
    DeliveryStamps(FileAfter(file, steps[..a]), steps[a], id);
    forall f, step | fact(f) && quiet(f, step) ensures fact(FileStep(f, step)) {
      YoungStampHolds(f, step, id, t);
    }
    Persists(FileStep, file, steps, a, c, fact, quiet);
  }

  /** A clock that does not run backwards over the polls, and is positive. */
  ghost predicate ClockForward(steps: seq<Step>) {
    && (forall i | 0 <= i < |steps| && steps[i].event.Poll? :: steps[i].event.now > 0)
    && (forall i, j | 0 <= i < j < |steps| && steps[i].event.Poll? && steps[j].event.Poll? ::
          steps[i].event.now <= steps[j].event.now)
  }

  /** Two polls that each deliver an id that stays pending between them are more than 24 hours apart, if the first one's
      write goes through and no step in between wipes the file. */
  lemma DeliveriesADayApart(file: RawState, steps: seq<Step>, a: nat, b: nat, id: string)
    requires a < b < |steps| && ClockForward(steps) && !IsBlank(id)
    requires forall i | a < i <= b && steps[i].event.Poll? :: id in PendingIds(steps[i].event.pending)
    requires steps[a].write == Whole && NoneWipes(file, steps, a + 1, b)
    requires steps[a].event.Poll? && Delivers(FileAfter(file, steps[..a]), steps[a], id)
    requires steps[b].event.Poll? && Delivers(FileAfter(file, steps[..b]), steps[b], id)
    ensures steps[b].event.now - steps[a].event.now > MAX_SEEN_AGE_MS
  {
    if steps[b].event.now - steps[a].event.now <= MAX_SEEN_AGE_MS {
      StampHolds(file, steps, a, b, id);
      YoungStampHolds(FileAfter(file, steps[..b]), steps[b], id, steps[a].event.now);
      assert false;
    }
  }

  // ----- deliveries that repeat

  /** The poll of one request, with sends that all succeed. */
  function PollOf(request: Request, now: int, write: WriteOutcome): Step {
    Step(Poll([request], now, (_, _) => true), true, write)
  }

  lemma OnePollDelivers(file: RawState, request: Request, now: int, write: WriteOutcome, j: nat)
    requires now > 0 && j < |Read(file, now).subscribers| && Read(file, now).subscribers[j].mode == Persistent
    requires !Seen(SeenIn(file), request.requestId)
    ensures Delivers(file, PollOf(request, now, write), request.requestId)
  {
    var state, event := Read(file, now), PollOf(request, now, write).event;
    PollDelivers(state, event.pending, now, event.send, 0, j);
    assert Delivery(0, j) in Polled(state, event.pending, now, event.send).deliveries;
  }

  /** A blank id is never remembered, so a poll delivers it however recently an earlier one did. */
  lemma BlankIdIsNeverSeen(file: RawState, request: Request, now: int, write: WriteOutcome, j: nat)
    requires IsBlank(request.requestId) && now > 0
    requires j < |Read(file, now).subscribers| && Read(file, now).subscribers[j].mode == Persistent
    ensures Delivers(file, PollOf(request, now, write), request.requestId)
  {
    OnePollDelivers(file, request, now, write, j);
  }

  /** A file with one persistent subscriber. */
  function Subscribed(target: Target): RawState {
    Written(State([Subscription(target, Persistent, 0)], map[]))
  }

  lemma SubscribedReads(target: Target, now: int)
    requires NormalTarget(target)
    ensures Read(Subscribed(target), now) == State([Subscription(target, Persistent, 0)], map[])
  {
    ReadWrittenIff(State([Subscription(target, Persistent, 0)], map[]), now);
  }

  /** A poll with a persistent subscriber keeps it. */
  lemma PollKeepsOne(state: State, event: Event)
    requires event.Poll? && |state.subscribers| == 1 && state.subscribers[0].mode == Persistent
    ensures Next(state, event).subscribers == state.subscribers
  {
    var spent := SpentKeys(state.subscribers, Polled(state, event.pending, event.now, event.send).deliveries);
    assert spent == {};
    WithoutNone(state.subscribers);
  }

  lemma FileKeepsOne(target: Target, request: Request, later: int)
    requires NormalTarget(target)
    ensures Read(FileStep(Subscribed(target), PollOf(request, 1, Whole)), later).subscribers
            == [Subscription(target, Persistent, 0)]
  {
    var file, step := Subscribed(target), PollOf(request, 1, Whole);
    forall now ensures Read(file, now).subscribers == [Subscription(target, Persistent, 0)] {
      SubscribedReads(target, now);
    }
    PollKeepsOne(StateRead(file, step), step.event);
    StepSound(file, step, later);
  }

  /** Polls at the times 1 and 2 both deliver a blank id. */
  lemma BlankIdRepeats(target: Target, request: Request)
    requires NormalTarget(target) && IsBlank(request.requestId)
    ensures var first, second := PollOf(request, 1, Whole), PollOf(request, 2, Whole);
            && Delivers(Subscribed(target), first, request.requestId)
            && Delivers(FileStep(Subscribed(target), first), second, request.requestId)
  {
    SubscribedReads(target, 1);
    BlankIdIsNeverSeen(Subscribed(target), request, 1, Whole, 0);
    FileKeepsOne(target, request, 2);
    BlankIdIsNeverSeen(FileStep(Subscribed(target), PollOf(request, 1, Whole)), request, 2, Whole, 0);
  }

  /** A poll whose write is refused leaves the file as it was, so the next poll delivers again. */
  lemma RefusedWriteRepeats(target: Target, request: Request)
    requires NormalTarget(target)
    ensures var first, second := PollOf(request, 1, Refused), PollOf(request, 2, Whole);
            && Delivers(Subscribed(target), first, request.requestId)
            && Delivers(FileStep(Subscribed(target), first), second, request.requestId)
  {
    SubscribedReads(target, 0);
    SubscribedReads(target, 1);
    SubscribedReads(target, 2);
    OnePollDelivers(Subscribed(target), request, 1, Refused, 0);
    OnePollDelivers(Subscribed(target), request, 2, Whole, 0);
  }

  /** A poll delivers to one chat; another chat subscribes while the file cannot be read; then the first chat is no
      longer subscribed, and the next poll delivers the same request again. */
  lemma FailedReadRepeats(target: Target, request: Request, ctx: Context, newcomer: Target)
    requires NormalTarget(target) && NormalTarget(newcomer) && ResolveNotifyTarget(ctx) == Some(newcomer)
    ensures var first, third := PollOf(request, 1, Whole), PollOf(request, 3, Whole);
            var joins := Step(Chat(ctx, On, 2), false, Whole);
            var after := FileStep(FileStep(Subscribed(target), first), joins);
            && Delivers(Subscribed(target), first, request.requestId)
            && Read(after, 3).subscribers == [Subscription(newcomer, Persistent, 2)]
            && Delivers(after, third, request.requestId)
  {
    var file, joins := Subscribed(target), Step(Chat(ctx, On, 2), false, Whole);
    SubscribedReads(target, 0);
    SubscribedReads(target, 1);
    OnePollDelivers(file, request, 1, Whole, 0);
    FailedReadStep(FileStep(file, PollOf(request, 1, Whole)), joins);
    JoinedAlone(newcomer, request, 2);
  }

  lemma JoinedAlone(newcomer: Target, request: Request, joined: int)
    requires NormalTarget(newcomer)
    ensures var file := Written(State([Subscription(newcomer, Persistent, joined)], map[]));
            && Read(file, 3).subscribers == [Subscription(newcomer, Persistent, joined)]
            && Delivers(file, PollOf(request, 3, Whole), request.requestId)
  {
    var alone := State([Subscription(newcomer, Persistent, joined)], map[]);
    ReadWrittenIff(alone, 0);
    ReadWrittenIff(alone, 3);
    OnePollDelivers(Written(alone), request, 3, Whole, 0);
  }

  lemma PolledPending(state: State, pending: seq<Request>, now: int, send: Sender)
    requires now > 0
    ensures Polled(state, pending, now, send).state.notified.Keys <= PendingIds(pending)
  {
    var pruned := Pruned(state.notified, PendingIds(pending), now);
    AnnouncedSeen(state.subscribers, pending, |pending|, now, send, pruned, "");
    assert pruned.Keys <= PendingIds(pending);
  }

  /** After a poll the ids in the file are among those pending in it, exactly when the poll could read the file and
      write it, or they were so before. */
  lemma SeenIsPending(file: RawState, step: Step)
    requires step.event.Poll? && step.event.now > 0
    ensures SeenIn(FileStep(file, step)).Keys <= PendingIds(step.event.pending)
            <==> (step.canRead && step.write != Refused) || SeenIn(file).Keys <= PendingIds(step.event.pending)
  {
    var event := step.event;
    if step.canRead {
      PolledPending(StateRead(file, step), event.pending, event.now, event.send);
      ReadNotified(NextState(file, step), 0);
      assert SeenIn(NO_FILE) == map[];
    } else {
      FailedReadStep(file, step);
    }
  }

  // ----- one-shot subscriptions

  ghost predicate NoOneShot(subscribers: seq<Subscription>, key: string) {
    forall s | s in subscribers && s.mode == Once :: Key(s.target) != key
  }

  /** The event arms a one-shot subscription that the file stores under the key. */
  ghost predicate Arms(event: Event, key: string) {
    event.Chat? && event.command == Arm && ResolveNotifyTarget(event.ctx).Some?
    && Key(NormalForm(ResolveNotifyTarget(event.ctx).value)) == key
  }

  /** A send of the poll to a one-shot subscriber stored under the key succeeded. */
  ghost predicate OneShotDelivery(file: RawState, step: Step, key: string) {
    step.event.Poll? &&
    var state := StateRead(file, step);
    exists d :: d in Polled(state, step.event.pending, step.event.now, step.event.send).deliveries
                && IsOneShot(state.subscribers, d.subscriber, key)
  }

  ghost predicate IsOneShot(subscribers: seq<Subscription>, i: nat, key: string) {
    i < |subscribers| && subscribers[i].mode == Once && Key(subscribers[i].target) == key
  }

  /** When the file is read matters only for the arming times that it does not record. */
  lemma ReadTimeIrrelevant(file: RawState, key: string, a: int, b: int)
    ensures NoOneShot(Read(file, a).subscribers, key) <==> NoOneShot(Read(file, b).subscribers, key)
    ensures KeysDistinct(Read(file, a).subscribers) <==> KeysDistinct(Read(file, b).subscribers)
  {
    CollectRelated(file.subscribers, item => NormalizeItem(item, a), item => NormalizeItem(item, b),
                   (s: Subscription, t: Subscription) => s.target == t.target && s.mode == t.mode);
  }

  /** Every subscriber after an event was there before or is the one that a command inserts. */
  lemma NextElements(state: State, event: Event, s: Subscription)
    requires s in Next(state, event).subscribers
    ensures s in state.subscribers || Inserted(event, s)
  {
    match event
    case Poll(pending, now, send) =>
      WithoutHas(state.subscribers, SpentKeys(state.subscribers, Polled(state, pending, now, send).deliveries), s);
    case Chat(ctx, command, now) =>
      var target := ResolveNotifyTarget(ctx);
      if target.Some? {
        match command
        case On => UpsertedHas(state.subscribers, target.value, Persistent, now, s);
        case Arm => UpsertedHas(state.subscribers, target.value, Once, now, s);
        case Off => RemovedHas(state.subscribers, Key(target.value), s);
        case Status =>
      }
  }

  lemma ReadHasAddress(file: RawState, step: Step, s: Subscription)
    requires s in StateRead(file, step).subscribers
    ensures HasAddress(s) && Renormalized(s) == s
  {
    ReadIsNormal(file.subscribers, step.event.now);
    NormalIsFixed(s);
  }

  ghost predicate Inserted(event: Event, s: Subscription) {
    event.Chat? && ResolveNotifyTarget(event.ctx) == Some(s.target)
        && event.command == (if s.mode == Once then Arm else On)
  }

  lemma InsertedHasAddress(event: Event, s: Subscription)
    requires Inserted(event, s)
    ensures HasAddress(s)
  {
  }

  /** What the file holds after a write that goes through: the renormalised subscribers of the new state. */
  lemma WrittenSubscribers(file: RawState, step: Step, now: int)
    requires WritesFile(file, step) && step.write == Whole
    ensures Read(FileStep(file, step), now).subscribers == Renormalize(NextState(file, step).subscribers)
  {
    var next := NextState(file, step).subscribers;
    forall i | 0 <= i < |next| ensures HasAddress(next[i]) {
      NextElements(StateRead(file, step), step.event, next[i]);
      if next[i] in StateRead(file, step).subscribers {
        ReadHasAddress(file, step, next[i]);
      } else {
        InsertedHasAddress(step.event, next[i]);
      }
    }
    RereadUsable(next, now);
  }

  /** A step puts a one-shot subscription under a key only by arming it. */
  lemma StepOneShot(file: RawState, step: Step, key: string, now: int)
    requires !Arms(step.event, key) && NoOneShot(Read(file, now).subscribers, key)
    ensures NoOneShot(Read(FileStep(file, step), now).subscribers, key)
  {
    ReadTimeIrrelevant(file, key, now, step.event.now);
    var state, next := StateRead(file, step), NextState(file, step);
    if WritesFile(file, step) && step.write == Whole {
      WrittenSubscribers(file, step, now);
      var r := Renormalize(next.subscribers);
      forall s | s in r && s.mode == Once ensures Key(s.target) != key {
        var i :| 0 <= i < |r| && r[i] == s;
        NextElements(state, step.event, next.subscribers[i]);
        if next.subscribers[i] in state.subscribers {
          ReadHasAddress(file, step, next.subscribers[i]);
        }
      }
    }
  }

  /** A poll that delivers to a one-shot subscription leaves none under its key, unless its write is refused. */
  lemma DeliveryRemoves(file: RawState, step: Step, key: string, now: int)
    requires OneShotDelivery(file, step, key) && step.write != Refused
    ensures NoOneShot(Read(FileStep(file, step), now).subscribers, key)
  {
    var event, state := step.event, StateRead(file, step);
    var d :| d in Polled(state, event.pending, event.now, event.send).deliveries
             && IsOneShot(state.subscribers, d.subscriber, key);
    OneShotSpent(state, event.pending, event.now, event.send, d);
    var s := state.subscribers[d.subscriber];
    assert s in state.subscribers && s !in NextState(file, step).subscribers;
    if step.write == Whole {
      WrittenOneShot(file, step, key, now);
    }
  }

  lemma WrittenOneShot(file: RawState, step: Step, key: string, now: int)
    requires WritesFile(file, step) && step.write == Whole && step.event.Poll?
    requires NoOneShot(NextState(file, step).subscribers, key)
    ensures NoOneShot(Read(FileStep(file, step), now).subscribers, key)
  {
    WrittenSubscribers(file, step, now);
    var next := NextState(file, step).subscribers;
    var r := Renormalize(next);
    forall s | s in r && s.mode == Once ensures Key(s.target) != key {
      var i :| 0 <= i < |r| && r[i] == s;
      NextElements(StateRead(file, step), step.event, next[i]);
      ReadHasAddress(file, step, next[i]);
    }
  }

  lemma StaysGone(file: RawState, steps: seq<Step>, a: nat, c: nat, key: string)
    requires a < c <= |steps| && OneShotDelivery(FileAfter(file, steps[..a]), steps[a], key)
    requires steps[a].write != Refused && forall i | a < i < c :: !Arms(steps[i].event, key)
    ensures NoOneShot(Read(FileAfter(file, steps[..c]), 0).subscribers, key)
  {
    var fact := (f: RawState) => NoOneShot(Read(f, 0).subscribers, key);
    var quiet := (f: RawState, step: Step) => !Arms(step.event, key);
    DeliveryRemoves(FileAfter(file, steps[..a]), steps[a], key, 0);
    forall f, step | fact(f) && quiet(f, step) ensures fact(FileStep(f, step)) {
      StepOneShot(f, step, key, 0);
    }
    Persists(FileStep, file, steps, a, c, fact, quiet);
  }

  /** Two polls that both deliver to a one-shot subscription under one key are separated by a command that arms it
      again, unless the first one's write is refused: all successful sends to one armed subscription fall in one
      poll. */
  lemma OneShotFiresOnce(file: RawState, steps: seq<Step>, a: nat, b: nat, key: string)
    requires a < b < |steps| && steps[a].write != Refused
    requires OneShotDelivery(FileAfter(file, steps[..a]), steps[a], key)
    requires OneShotDelivery(FileAfter(file, steps[..b]), steps[b], key)
    ensures exists c :: a < c < b && Arms(steps[c].event, key)
  {
    if forall c | a < c < b :: !Arms(steps[c].event, key) {
      StaysGone(file, steps, a, b, key);
      ReadTimeIrrelevant(FileAfter(file, steps[..b]), key, 0, steps[b].event.now);
      assert false;
    }
  }

  /** A poll whose write is refused leaves its one-shot subscriptions armed: the same poll again delivers again. */
  lemma RefusedOneShotFiresAgain(file: RawState, step: Step, key: string)
    requires OneShotDelivery(file, step, key) && step.write == Refused
    ensures OneShotDelivery(FileStep(file, step), step, key)
  {
  }

  // ----- key uniqueness under interleaving

  /** Operations in progress hold the state that they read; a write replaces the file with no regard to others. */
  datatype System = System(file: RawState, held: map<nat, State>)

  datatype Action =
    | ReadFile(op: nat, now: int)
    | ReadFails(op: nat)
    | WriteBack(op: nat, event: Event, write: WriteOutcome)

  function Act(s: System, action: Action): System {
    match action
    case ReadFile(op, now) => s.(held := s.held[op := Read(s.file, now)])
    case ReadFails(op) => s.(held := s.held[op := EMPTY])
    case WriteBack(op, event, write) =>
      if op !in s.held then s
      else if Next(s.held[op], event) == s.held[op] || write == Refused then s.(held := s.held - {op})
      else System(if write == Torn then NO_FILE else Written(Next(s.held[op], event)), s.held - {op})
  }

  function Interleaved(file: RawState, actions: seq<Action>): System {
    After(Act, System(file, map[]), actions)
  }

  /** An operation that reads the file and writes it back with nothing in between is a step, and leaves the other
      operations as they were. */
  lemma UninterruptedIsStep(s: System, op: nat, step: Step)
    requires op !in s.held
    ensures var held := Act(s, if step.canRead then ReadFile(op, step.event.now) else ReadFails(op));
            Act(held, WriteBack(op, step.event, step.write)) == System(FileStep(s.file, step), s.held)
  {
    var held := Act(s, if step.canRead then ReadFile(op, step.event.now) else ReadFails(op));
    assert held.held[op] == StateRead(s.file, step) && held.held - {op} == s.held;
  }

  /** A write that goes through replaces the file by what its operation makes of the state that it read, whatever was
      written since: an update in between is lost. */
  lemma LastWriteWins(s: System, op: nat, event: Event, between: RawState)
    requires op in s.held && Next(s.held[op], event) != s.held[op]
    ensures Act(s.(file := between), WriteBack(op, event, Whole)).file == Act(s, WriteBack(op, event, Whole)).file
            == Written(Next(s.held[op], event))
  {
  }

  /** The command's target, if it has one, is in normal form. */
  predicate NormalEvent(event: Event) {
    event.Chat? && ResolveNotifyTarget(event.ctx).Some? ==> NormalTarget(ResolveNotifyTarget(event.ctx).value)
  }

  ghost predicate Sound(subscribers: seq<Subscription>) {
    NormalSubscribers(subscribers) && KeysDistinct(subscribers)
  }

  lemma NextDistinct(state: State, event: Event)
    requires KeysDistinct(state.subscribers)
    ensures KeysDistinct(Next(state, event).subscribers)
  {
    match event
    case Poll(pending, now, send) =>
      WithoutDistinct(state.subscribers, SpentKeys(state.subscribers, Polled(state, pending, now, send).deliveries));
    case Chat(ctx, command, now) =>
      var target := ResolveNotifyTarget(ctx);
      if target.Some? {
        match command
        case On => UpsertKeepsDistinct(state.subscribers, target.value, Persistent, now);
        case Arm => UpsertKeepsDistinct(state.subscribers, target.value, Once, now);
        case Off => RemoveKeepsDistinct(state.subscribers, Key(target.value));
        case Status =>
      }
  }

  lemma NextSound(state: State, event: Event)
    requires Sound(state.subscribers) && NormalEvent(event)
    ensures Sound(Next(state, event).subscribers)
  {
    NextDistinct(state, event);
    var next := Next(state, event).subscribers;
    forall i | 0 <= i < |next| ensures NormalTarget(next[i].target) {
      NextElements(state, event, next[i]);
    }
  }

  lemma {:induction false} WithoutDistinct(subscribers: seq<Subscription>, keys: set<string>)
    requires KeysDistinct(subscribers)
    ensures KeysDistinct(Without(subscribers, keys))
  {
    if subscribers != [] {
      var init, last := subscribers[..|subscribers| - 1], subscribers[|subscribers| - 1];
      WithoutDistinct(init, keys);
      forall i | 0 <= i < |Without(init, keys)| ensures Key(Without(init, keys)[i].target) != Key(last.target) {
        WithoutHas(init, keys, Without(init, keys)[i]);
      }
    }
  }

  ghost predicate SoundFile(file: RawState) {
    forall now :: KeysDistinct(Read(file, now).subscribers)
  }

  ghost predicate SoundSystem(s: System) {
    SoundFile(s.file) && forall op | op in s.held :: Sound(s.held[op].subscribers)
  }

  predicate NormalAction(action: Action) {
    action.WriteBack? ==> NormalEvent(action.event)
  }

  lemma ActKeepsSound(s: System, action: Action)
    requires SoundSystem(s) && NormalAction(action)
    ensures SoundSystem(Act(s, action))
  {
    match action
    case ReadFile(op, now) => ReadIsNormal(s.file.subscribers, now);
    case ReadFails(op) =>
    case WriteBack(op, event, write) =>
      if op in s.held {
        NextSound(s.held[op], event);
        forall now { RereadNormal(Next(s.held[op], event).subscribers, now); }
      }
  }

  /** Subscriber keys are distinct in every version of the file and in every state read from it, however the reads and
      writes of polls and commands interleave. */
  lemma KeysAlwaysDistinct(file: RawState, actions: seq<Action>)
    requires SoundFile(file)
    requires forall i | 0 <= i < |actions| :: NormalAction(actions[i])
    ensures SoundFile(Interleaved(file, actions).file)
    ensures forall op | op in Interleaved(file, actions).held ::
            KeysDistinct(Interleaved(file, actions).held[op].subscribers)
  {
    var fact, allowed := s => SoundSystem(s), a => NormalAction(a);
    forall s, a | fact(s) && allowed(a) ensures fact(Act(s, a)) {
      ActKeepsSound(s, a);
    }
    AlwaysHolds(Act, System(file, map[]), actions, fact, allowed);
  }

  // ----- persistent subscriptions

  ghost predicate StandsAt(subscribers: seq<Subscription>, i: int, target: Target) {
    0 <= i < |subscribers| && subscribers[i].target == target && subscribers[i].mode == Persistent
  }

  /** Both targets have a persistent subscription, the first one before the second, or at the same place. */
  ghost predicate InOrder(subscribers: seq<Subscription>, first: Target, second: Target) {
    exists i, j :: i <= j && StandsAt(subscribers, i, first) && StandsAt(subscribers, j, second)
  }

  /** A command that takes the persistent subscription of the key away. */
  ghost predicate Withdraws(event: Event, key: string) {
    && event.Chat? && (event.command == Off || event.command == Arm)
    && ResolveNotifyTarget(event.ctx).Some? && Key(ResolveNotifyTarget(event.ctx).value) == key
  }

  lemma {:induction false} WithoutInOrder(subscribers: seq<Subscription>, keys: set<string>, i: int, j: int,
                                          first: Target, second: Target)
    requires i <= j && StandsAt(subscribers, i, first) && StandsAt(subscribers, j, second)
    requires Key(first) !in keys && Key(second) !in keys
    ensures InOrder(Without(subscribers, keys), first, second)
  {
    var n := |subscribers| - 1;
    var init, last := subscribers[..n], subscribers[n];
    var kept, all := Without(init, keys), Without(subscribers, keys);
    if j < n {
      WithoutInOrder(init, keys, i, j, first, second);
      var k, l :| k <= l && StandsAt(kept, k, first) && StandsAt(kept, l, second);
      assert StandsAt(all, k, first) && StandsAt(all, l, second);
    } else {
      assert all == kept + [last] && StandsAt(all, |kept|, second);
      if i == n {
        assert StandsAt(all, |kept|, first);
      } else {
        WithoutHas(init, keys, init[i]);
        var k :| 0 <= k < |kept| && kept[k] == init[i];
        assert StandsAt(all, k, first);
      }
    }
  }

  lemma UpsertInOrder(subscribers: seq<Subscription>, target: Target, mode: Mode, now: int, first: Target,
                      second: Target)
    requires KeysDistinct(subscribers) && InOrder(subscribers, first, second)
    requires mode == Once ==> Key(target) != Key(first) && Key(target) != Key(second)
    ensures InOrder(Upserted(subscribers, target, mode, now), first, second)
  {
    var i, j :| i <= j && StandsAt(subscribers, i, first) && StandsAt(subscribers, j, second);
    var next := Upserted(subscribers, target, mode, now);
    assert StandsAt(next, i, first) && StandsAt(next, j, second);
  }

  lemma RemoveInOrder(subscribers: seq<Subscription>, key: string, first: Target, second: Target)
    requires InOrder(subscribers, first, second) && key != Key(first) && key != Key(second)
    ensures InOrder(RemovedKey(subscribers, key), first, second)
  {
    var i, j :| i <= j && StandsAt(subscribers, i, first) && StandsAt(subscribers, j, second);
    var next, index := RemovedKey(subscribers, key), FindKey(subscribers, key);
    if index != -1 {
      assert StandsAt(next, if i < index then i else i - 1, first);
      assert StandsAt(next, if j < index then j else j - 1, second);
    }
  }

  lemma PollInOrder(state: State, pending: seq<Request>, now: int, send: Sender, first: Target, second: Target)
    requires KeysDistinct(state.subscribers) && InOrder(state.subscribers, first, second)
    ensures InOrder(Polled(state, pending, now, send).state.subscribers, first, second)
  {
    var i, j :| i <= j && StandsAt(state.subscribers, i, first) && StandsAt(state.subscribers, j, second);
    var deliveries := Polled(state, pending, now, send).deliveries;
    SpentAreOneShot(state.subscribers, deliveries);
    WithoutInOrder(state.subscribers, SpentKeys(state.subscribers, deliveries), i, j, first, second);
  }

  lemma NextInOrder(state: State, event: Event, first: Target, second: Target)
    requires KeysDistinct(state.subscribers) && InOrder(state.subscribers, first, second)
    requires !Withdraws(event, Key(first)) && !Withdraws(event, Key(second))
    ensures InOrder(Next(state, event).subscribers, first, second)
  {
    match event
    case Poll(pending, now, send) => PollInOrder(state, pending, now, send, first, second);
    case Chat(ctx, command, now) =>
      var target := ResolveNotifyTarget(ctx);
      if target.Some? {
        match command
        case On => UpsertInOrder(state.subscribers, target.value, Persistent, now, first, second);
        case Arm => UpsertInOrder(state.subscribers, target.value, Once, now, first, second);
        case Off => RemoveInOrder(state.subscribers, Key(target.value), first, second);
        case Status =>
      }
  }

  lemma OrderAtAnyTime(file: RawState, first: Target, second: Target, a: int, b: int)
    requires InOrder(Read(file, a).subscribers, first, second)
    ensures InOrder(Read(file, b).subscribers, first, second)
  {
    CollectRelated(file.subscribers, item => NormalizeItem(item, a), item => NormalizeItem(item, b),
                   (s: Subscription, t: Subscription) => s.target == t.target && s.mode == t.mode);
    var i, j :| i <= j && StandsAt(Read(file, a).subscribers, i, first)
        && StandsAt(Read(file, a).subscribers, j, second);
    assert StandsAt(Read(file, b).subscribers, i, first) && StandsAt(Read(file, b).subscribers, j, second);
  }

  /** A step from a sound file leaves a sound file, and what it writes reads back as the state that was computed. */
  lemma StepSound(file: RawState, step: Step, now: int)
    requires SoundFile(file) && NormalEvent(step.event)
    ensures SoundFile(FileStep(file, step))
    ensures WritesFile(file, step) && step.write == Whole
            ==> Read(FileStep(file, step), now).subscribers == NextState(file, step).subscribers
  {
    var next := NextState(file, step);
    ReadIsNormal(file.subscribers, step.event.now);
    if WritesFile(file, step) && step.write == Whole {
      NextSound(StateRead(file, step), step.event);
      RereadNormal(next.subscribers, now);
      forall t ensures KeysDistinct(Read(Written(next), t).subscribers) {
        RereadNormal(next.subscribers, t);
      }
    }
  }

  lemma StepInOrder(file: RawState, step: Step, first: Target, second: Target)
    requires SoundFile(file) && NormalEvent(step.event) && InOrder(Read(file, 0).subscribers, first, second)
    requires !Withdraws(step.event, Key(first)) && !Withdraws(step.event, Key(second)) && !Wipes(file, step)
    ensures InOrder(Read(FileStep(file, step), 0).subscribers, first, second)
  {
    if WritesFile(file, step) && step.write == Whole {
      OrderAtAnyTime(file, first, second, 0, step.event.now);
      NextInOrder(StateRead(file, step), step.event, first, second);
      StepSound(file, step, 0);
    }
  }

  lemma {:induction false} SoundAfter(file: RawState, steps: seq<Step>, n: nat)
    requires n <= |steps| && SoundFile(file) && forall i | 0 <= i < n :: NormalEvent(steps[i].event)
    ensures SoundFile(FileAfter(file, steps[..n]))
  {
    if n > 0 {
      SoundAfter(file, steps, n - 1);
      AfterNext(FileStep, file, steps, n - 1);
      StepSound(FileAfter(file, steps[..n - 1]), steps[n - 1], 0);
    }
  }

  /** Over every run, persistent subscriptions stay, in their order, until a command switches one of them off or arms a
      one-shot subscription in its place, or a step wipes the file. */
  lemma {:induction false} PersistentStays(file: RawState, steps: seq<Step>, a: nat, b: nat, first: Target,
                                           second: Target)
    requires a <= b <= |steps| && SoundFile(file) && forall i | 0 <= i < b :: NormalEvent(steps[i].event)
    requires InOrder(Read(FileAfter(file, steps[..a]), 0).subscribers, first, second)
    requires forall i | a <= i < b ::
               !Withdraws(steps[i].event, Key(first)) && !Withdraws(steps[i].event, Key(second))
    requires NoneWipes(file, steps, a, b)
    ensures InOrder(Read(FileAfter(file, steps[..b]), 0).subscribers, first, second)
  {
    if a < b {
      PersistentStays(file, steps, a, b - 1, first, second);
      SoundAfter(file, steps, b - 1);
      AfterNext(FileStep, file, steps, b - 1);
      StepInOrder(FileAfter(file, steps[..b - 1]), steps[b - 1], first, second);
    }
  }

  /** A step that wipes the file takes every subscription, save the one that its own command makes. */
  lemma WipedSubscribers(file: RawState, step: Step, now: int, s: Subscription)
    requires Wipes(file, step) && s in Read(FileStep(file, step), now).subscribers
    ensures step.write == Whole && Enlists(step.event) && s == Renormalized(Enlisted(step.event))
  {
    if step.write == Whole {
      FailedReadStep(file, step);
      FromEmpty(step.event);
      WrittenSubscribers(file, step, now);
    }
  }
}
