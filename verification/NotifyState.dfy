/** The persisted state of the pairing notifier: decoding, encoding, subscriber keys and the upsert. */
module NotifyState {
  import opened Common
  import opened Js

  datatype Mode = Persistent | Once

  datatype Thread = TextThread(text: string) | NumberThread(number: int)

  datatype Target = Target(to: string, accountId: Option<string>, thread: Option<Thread>)

  datatype Subscription = Subscription(target: Target, mode: Mode, addedAtMs: int)

  datatype State = State(subscribers: seq<Subscription>, notified: map<string, int>)

  // ----- the file

  /** A field of a decoded JSON object, as far as the normaliser distinguishes. */
  datatype Json = Missing | Str(s: string) | Num(r: real) | Other

  datatype RawItem = NotAnObject | Record(to: Json, accountId: Json, thread: Json, mode: Json, addedAtMs: Json)

  /** The decoded file; a missing or unreadable file decodes to no subscribers and no ids. */
  datatype RawState = RawState(subscribers: seq<RawItem>, notified: map<string, Json>)

  /** `Math.trunc`. */
  function Trunc(r: real): int {
    if r >= 0.0 then r.Floor else -((-r).Floor)
  }

  function NormalizeText(j: Json): Option<string> {
    if j.Str? && Trim(j.s) != "" then Some(Trim(j.s)) else None
  }

  function NormalizeThread(j: Json): Option<Thread> {
    match j
    case Str(s) => if Trim(s) != "" then Some(TextThread(Trim(s))) else None
    case Num(r) => Some(NumberThread(Trunc(r)))
    case _ => None
  }

  function NormalizeMode(j: Json): Mode {
    if j == Str("once") then Once else Persistent
  }

  function NormalizeItem(item: RawItem, now: int): Option<Subscription> {
    if item.NotAnObject? || NormalizeText(item.to).None? then None
    else
      Some(Subscription(
        Target(NormalizeText(item.to).value, NormalizeText(item.accountId), NormalizeThread(item.thread)),
        NormalizeMode(item.mode),
        if item.addedAtMs.Num? then Trunc(item.addedAtMs.r) else now))
  }

  /** The whole part: the number without its fraction, towards zero. */
  predicate WholePart(r: real, n: int) {
    if r >= 0.0 then n as real <= r < (n + 1) as real else (n - 1) as real < r <= n as real
  }

  lemma TruncMeans(r: real, n: int)
    ensures WholePart(r, n) <==> n == Trunc(r)
  {
    if r >= 0.0 {
      FloorIs(r, n);
    } else {
      FloorIs(-r, -n);
      assert (n - 1) as real == -((-n + 1) as real) && n as real == -((-n) as real);
    }
  }

  lemma FloorIs(r: real, n: int)
    ensures n as real <= r < (n + 1) as real <==> n == r.Floor
  {
  }

  /** An item is skipped exactly when it is no object or its address is no text or blank. Otherwise texts are trimmed,
      blank ones are dropped, numbers lose their fraction, any mode but `once` is persistent, and a missing time is the
      time of reading. */
  lemma ItemMeans(item: RawItem, now: int)
    ensures NormalizeItem(item, now).None? <==> item.NotAnObject? || !item.to.Str? || AllSpaces(item.to.s)
    ensures NormalizeItem(item, now).Some? ==> var s := NormalizeItem(item, now).value;
            && s.target.to == Trim(item.to.s)
            && (s.mode == Once <==> item.mode == Str("once"))
            && (if item.addedAtMs.Num? then WholePart(item.addedAtMs.r, s.addedAtMs) else s.addedAtMs == now)
            && TextMeans(item.accountId, s.target.accountId)
            && ThreadMeans(item.thread, s.target.thread)
  {
    if item.Record? {
      if item.to.Str? {
        BlankIff(item.to.s);
      }
      TextNormalizes(item.accountId);
      ThreadNormalizes(item.thread);
      if item.addedAtMs.Num? {
        TruncMeans(item.addedAtMs.r, Trunc(item.addedAtMs.r));
      }
    }
  }

  ghost predicate TextMeans(j: Json, text: Option<string>) {
    if j.Str? && !AllSpaces(j.s) then text == Some(Trim(j.s)) else text == None
  }

  ghost predicate ThreadMeans(j: Json, thread: Option<Thread>) {
    if j.Num? then thread.Some? && thread.value.NumberThread? && WholePart(j.r, thread.value.number)
    else if j.Str? && !AllSpaces(j.s) then thread == Some(TextThread(Trim(j.s)))
    else thread == None
  }

  lemma TextNormalizes(j: Json)
    ensures TextMeans(j, NormalizeText(j))
  {
    if j.Str? {
      BlankIff(j.s);
    }
  }

  lemma ThreadNormalizes(j: Json)
    ensures ThreadMeans(j, NormalizeThread(j))
  {
    if j.Str? {
      BlankIff(j.s);
    } else if j.Num? {
      TruncMeans(j.r, Trunc(j.r));
    }
  }

  /** The usable items of two lists one after the other are those of each, in order; of one item, itself if usable. */
  lemma ItemsOneByOne(xs: seq<RawItem>, ys: seq<RawItem>, item: RawItem, now: int)
    ensures NormalizeItems(xs + ys, now) == NormalizeItems(xs, now) + NormalizeItems(ys, now)
    ensures NormalizeItems([item], now) ==
            if NormalizeItem(item, now).Some? then [NormalizeItem(item, now).value] else []
  {
    CollectConcat(xs, ys, item => NormalizeItem(item, now));
    CollectOne(item, item => NormalizeItem(item, now));
  }

  function NormalizeItems(items: seq<RawItem>, now: int): seq<Subscription> {
    Collect(items, item => NormalizeItem(item, now))
  }

  predicate IsBlank(id: string) {
    Trim(id) == ""
  }

  predicate KeptId(id: string, ts: Json) {
    !IsBlank(id) && ts.Num? && ts.r > 0.0
  }

  /** `normalizeNotifyState`: what reading the file yields. */
  function Read(raw: RawState, now: int): State {
    State(NormalizeItems(raw.subscribers, now), KeptIds(raw.notified))
  }

  method NormalizeNotifyState(raw: RawState, now: int) returns (state: State)
    ensures state == Read(raw, now)
  {
    var subscribers: seq<Subscription> := [];
    for i := 0 to |raw.subscribers|
      invariant subscribers == NormalizeItems(raw.subscribers[..i], now)
    {
      assert raw.subscribers[..i + 1][..i] == raw.subscribers[..i];
      var item := NormalizeItem(raw.subscribers[i], now);
      if item.None? {
        continue;
      }
      subscribers := subscribers + [item.value];
    }
    assert raw.subscribers[..|raw.subscribers|] == raw.subscribers;
    var notified := NormalizeIds(raw.notified);
    state := State(subscribers, notified);
  }

  function KeptIds(raw: map<string, Json>): map<string, int> {
    map id | id in raw && KeptId(id, raw[id]) :: Trunc(raw[id].r)
  }

  /** An id is remembered exactly when it is not blank and its time is a positive number, with the whole part of it. */
  lemma IdMeans(raw: map<string, Json>, id: string)
    ensures id in KeptIds(raw) <==> id in raw && !AllSpaces(id) && raw[id].Num? && raw[id].r > 0.0
    ensures id in KeptIds(raw) ==> WholePart(raw[id].r, KeptIds(raw)[id])
  {
    BlankIff(id);
    if id in raw && raw[id].Num? {
      TruncMeans(raw[id].r, Trunc(raw[id].r));
    }
  }

  /** The loop over the remembered ids. */
  method NormalizeIds(raw: map<string, Json>) returns (notified: map<string, int>)
    ensures notified == KeptIds(raw)
  {
    notified := map[];
    var ids := raw.Keys;
    while ids != {}
      invariant ids <= raw.Keys
      invariant forall id :: id in notified <==> id in raw && id !in ids && KeptId(id, raw[id])
      invariant forall id | id in notified :: notified[id] == Trunc(raw[id].r)
      decreases ids
    {
      var id :| id in ids;
      ids := ids - {id};
      if !KeptId(id, raw[id]) {
        continue;
      }
      notified := notified[id := Trunc(raw[id].r)];
    }
  }

  function EncodeText(s: Option<string>): Json {
    if s.Some? then Str(s.value) else Missing
  }

  function EncodeThread(t: Option<Thread>): Json {
    if t.None? then Missing
    else if t.value.TextThread? then Str(t.value.text)
    else Num(t.value.number as real)
  }

  function EncodeMode(mode: Mode): Json {
    Str(if mode == Once then "once" else "persistent")
  }

  function EncodeItem(s: Subscription): RawItem {
    Record(Str(s.target.to), EncodeText(s.target.accountId), EncodeThread(s.target.thread),
           EncodeMode(s.mode), Num(s.addedAtMs as real))
  }

  function EncodeItems(subscribers: seq<Subscription>): seq<RawItem> {
    seq(|subscribers|, i requires 0 <= i < |subscribers| => EncodeItem(subscribers[i]))
  }

  /** `JSON.stringify` of the state, decoded again. */
  function Written(state: State): RawState {
    RawState(EncodeItems(state.subscribers), map id | id in state.notified :: Num(state.notified[id] as real))
  }

  // ----- which states survive being written and read

  /** The form in which reading returns a target. */
  function NormalForm(t: Target): Target {
    Target(Trim(t.to), NormalizeText(EncodeText(t.accountId)), NormalizeThread(EncodeThread(t.thread)))
  }

  predicate IsNormalText(s: string) {
    s != "" && IsTrimmed(s)
  }

  /** The address, account and thread ids already have the form that reading gives them. */
  predicate NormalTarget(t: Target) {
    && IsNormalText(t.to)
    && (t.accountId.Some? ==> IsNormalText(t.accountId.value))
    && (t.thread.Some? && t.thread.value.TextThread? ==> IsNormalText(t.thread.value.text))
  }

  ghost predicate NormalSubscribers(subscribers: seq<Subscription>) {
    forall i | 0 <= i < |subscribers| :: NormalTarget(subscribers[i].target)
  }

  ghost predicate WellFormed(state: State) {
    NormalSubscribers(state.subscribers) && forall id | id in state.notified :: !IsBlank(id) && state.notified[id] > 0
  }

  lemma TruncInt(n: int)
    ensures Trunc(n as real) == n
  {
    assert (-(n as real)) == (-n) as real;
  }

  lemma NormalTextIff(s: Option<string>)
    ensures NormalizeText(EncodeText(s)) == s <==> (s.Some? ==> IsNormalText(s.value))
  {
  }

  lemma NormalThreadIff(t: Option<Thread>)
    ensures NormalizeThread(EncodeThread(t)) == t <==> (t.Some? && t.value.TextThread? ==> IsNormalText(t.value.text))
  {
    if t.Some? && t.value.NumberThread? {
      TruncInt(t.value.number);
    }
  }

  lemma ModeRoundTrip(mode: Mode)
    ensures NormalizeMode(EncodeMode(mode)) == mode
  {
    assert "once"[0] != "persistent"[0];
  }

  /** Writing and reading a subscription normalises its target and keeps the rest; a blank address loses it. */
  lemma NormalizeEncoded(s: Subscription, now: int)
    ensures NormalizeItem(EncodeItem(s), now) ==
            if Trim(s.target.to) == "" then None else Some(s.(target := NormalForm(s.target)))
  {
    TruncInt(s.addedAtMs);
    ModeRoundTrip(s.mode);
  }

  lemma NormalFormIff(t: Target)
    ensures NormalTarget(t) <==> Trim(t.to) != "" && NormalForm(t) == t
  {
    NormalTextIff(t.accountId);
    NormalThreadIff(t.thread);
  }

  lemma ReadItemIsNormal(item: RawItem, now: int)
    requires NormalizeItem(item, now).Some?
    ensures NormalTarget(NormalizeItem(item, now).value.target)
  {
  }

  lemma ReadIsNormal(items: seq<RawItem>, now: int)
    ensures NormalSubscribers(NormalizeItems(items, now))
  {
    var f := item => NormalizeItem(item, now);
    forall j | 0 <= j < |Collect(items, f)| ensures NormalTarget(Collect(items, f)[j].target) {
      CollectFrom(items, f, j);
      var i :| 0 <= i < |items| && f(items[i]) == Some(Collect(items, f)[j]);
      ReadItemIsNormal(items[i], now);
    }
  }

  lemma NormalSurvives(s: Subscription, now: int)
    requires NormalTarget(s.target)
    ensures NormalizeItem(EncodeItem(s), now) == Some(s)
  {
    NormalizeEncoded(s, now);
    NormalFormIff(s.target);
  }

  lemma RereadNormal(subscribers: seq<Subscription>, now: int)
    requires NormalSubscribers(subscribers)
    ensures NormalizeItems(EncodeItems(subscribers), now) == subscribers
  {
    var f := item => NormalizeItem(item, now);
    forall i | 0 <= i < |subscribers| ensures f(EncodeItems(subscribers)[i]) == Some(subscribers[i]) {
      NormalSurvives(subscribers[i], now);
    }
    CollectAll(EncodeItems(subscribers), f, subscribers);
  }

  /** Reading back a written state is the identity exactly for the states with normal targets, non-blank ids and
      positive times. */
  lemma ReadWrittenIff(state: State, now: int)
    ensures Read(Written(state), now) == state <==> WellFormed(state)
  {
    var r := Read(Written(state), now);
    if r == state {
      ReadIsNormal(Written(state).subscribers, now);
      forall id | id in state.notified ensures !IsBlank(id) && state.notified[id] > 0 {
        assert id in r.notified;
      }
    }
    if WellFormed(state) {
      RereadNormal(state.subscribers, now);
      ReadNotified(state, now);
      assert r.notified == state.notified;
    }
  }

  /** An id survives with its time exactly when it is not blank and the time is positive. */
  lemma ReadNotified(state: State, now: int)
    ensures var r := Read(Written(state), now).notified;
            && (forall id :: id in r <==> id in state.notified && !IsBlank(id) && state.notified[id] > 0)
            && (forall id | id in r :: r[id] == state.notified[id])
  {
    forall id | id in state.notified ensures Trunc(state.notified[id] as real) == state.notified[id] {
      TruncInt(state.notified[id]);
    }
  }

  // ----- the chat that a command comes from

  datatype Context = Context(channel: string, senderId: string, from: string, to: string, accountId: string,
      thread: Option<Thread>)

  /** `resolveNotifyTarget` for Telegram chats; absent texts are empty. The account id is taken as it is. */
  function ResolveNotifyTarget(ctx: Context): Option<Target> {
    var to := if Trim(ctx.senderId) != "" then Trim(ctx.senderId)
              else if Trim(ctx.from) != "" then Trim(ctx.from) else Trim(ctx.to);
    if ctx.channel != "telegram" || to == "" then None
    else Some(Target(to, if ctx.accountId != "" then Some(ctx.accountId) else None, ctx.thread))
  }

  /** A command has a target exactly when it comes from a Telegram chat with some address; it is the first of sender,
      origin and destination that is not blank, with the account, if named, and the thread as they are. */
  lemma TargetMeans(ctx: Context)
    ensures var r := ResolveNotifyTarget(ctx);
            && (r.None? <==> ctx.channel != "telegram"
                             || (AllSpaces(ctx.senderId) && AllSpaces(ctx.from) && AllSpaces(ctx.to)))
            && (r.Some? ==>
                  && r.value.thread == ctx.thread
                  && r.value.accountId == (if ctx.accountId == "" then None else Some(ctx.accountId))
                  && (!AllSpaces(ctx.senderId) ==> r.value.to == Trim(ctx.senderId))
                  && (AllSpaces(ctx.senderId) && !AllSpaces(ctx.from) ==> r.value.to == Trim(ctx.from))
                  && (AllSpaces(ctx.senderId) && AllSpaces(ctx.from) ==> r.value.to == Trim(ctx.to)))
  {
    BlankIff(ctx.senderId);
    BlankIff(ctx.from);
    BlankIff(ctx.to);
  }

  // ----- keys and the upsert

  function ThreadText(t: Thread): string {
    if t.TextThread? then t.text else IntText(t.number)
  }

  /** `notifySubscriberKey`. */
  function Key(t: Target): string {
    t.to + "|" + t.accountId.GetOr("") + "|" + if t.thread.Some? then ThreadText(t.thread.value) else ""
  }

  ghost predicate SameThread(a: Option<Thread>, b: Option<Thread>) {
    match (a, b)
    case (Some(NumberThread(m)), Some(NumberThread(n))) => m == n
    case (Some(NumberThread(m)), Some(TextThread(t))) => t == IntText(m)
    case (Some(TextThread(t)), Some(NumberThread(m))) => t == IntText(m)
    case (Some(TextThread(t)), Some(TextThread(u))) => t == u
    case (None, Some(TextThread(t))) => t == ""
    case (Some(TextThread(t)), None) => t == ""
    case (None, None) => true
    case _ => false
  }

  /** For addresses and accounts without the separator, two targets share a key exactly when address, account and
      thread agree, a missing account or thread counting as an empty one. */
  lemma SameKeyIff(t: Target, u: Target)
    requires '|' !in t.to && '|' !in u.to && '|' !in t.accountId.GetOr("") && '|' !in u.accountId.GetOr("")
    ensures Key(t) == Key(u) <==>
            t.to == u.to && t.accountId.GetOr("") == u.accountId.GetOr("") && SameThread(t.thread, u.thread)
  {
    var a, b := ThreadPart(t.thread), ThreadPart(u.thread);
    KeyParts(t);
    KeyParts(u);
    SplitOnce(t.to, t.accountId.GetOr("") + "|" + a, u.to, u.accountId.GetOr("") + "|" + b);
    SplitOnce(t.accountId.GetOr(""), a, u.accountId.GetOr(""), b);
    SameThreadIff(t.thread, u.thread);
  }

  /** With the separator in an address or an account, two different targets can share a key. */
  lemma BarsCollide(to: string, rest: string)
    ensures Key(Target(to + "|" + rest, None, None)) == Key(Target(to, Some(rest + "|"), None))
  {
    var bar: string := "|";
    assert to + bar + rest + bar + "" + bar + "" == to + bar + (rest + bar) + bar + "";
  }

  function ThreadPart(t: Option<Thread>): string {
    if t.Some? then ThreadText(t.value) else ""
  }

  lemma KeyParts(t: Target)
    ensures Key(t) == t.to + "|" + (t.accountId.GetOr("") + "|" + ThreadPart(t.thread))
  {
  }

  /** Before the first separator and after it. */
  lemma SplitOnce(a: string, x: string, b: string, y: string)
    requires '|' !in a && '|' !in b
    ensures a + "|" + x == b + "|" + y <==> a == b && x == y
  {
    FirstBar(a, x);
    FirstBar(b, y);
    if a + "|" + x == b + "|" + y {
      assert |a| == |b|;
    }
  }

  lemma FirstBar(a: string, x: string)
    requires '|' !in a
    ensures var s := a + "|" + x;
            s[|a|] == '|' && (forall i | 0 <= i < |a| :: s[i] != '|') && s[..|a|] == a && s[|a| + 1..] == x
  {
  }

  lemma SameThreadIff(a: Option<Thread>, b: Option<Thread>)
    ensures ThreadPart(a) == ThreadPart(b) <==> SameThread(a, b)
  {
    if a.Some? && a.value.NumberThread? {
      IntTextInjective(a.value.number, if b.Some? && b.value.NumberThread? then b.value.number else 0);
    } else if b.Some? && b.value.NumberThread? {
      IntTextInjective(b.value.number, 0);
    }
  }

  ghost predicate KeysDistinct(subscribers: seq<Subscription>) {
    forall i, j | 0 <= i < j < |subscribers| :: Key(subscribers[i].target) != Key(subscribers[j].target)
  }

  function FindKey(subscribers: seq<Subscription>, key: string): (r: int)
    ensures r == -1 || (0 <= r < |subscribers| && Key(subscribers[r].target) == key)
    ensures r == -1 ==> forall i | 0 <= i < |subscribers| :: Key(subscribers[i].target) != key
    ensures forall i | 0 <= i < r :: Key(subscribers[i].target) != key
  {
    if subscribers == [] then -1
    else if Key(subscribers[0].target) == key then 0
    else var r := FindKey(subscribers[1..], key); if r == -1 then -1 else r + 1
  }

  function Upserted(subscribers: seq<Subscription>, target: Target, mode: Mode, now: int): seq<Subscription> {
    var index := FindKey(subscribers, Key(target));
    if index == -1 then subscribers + [Subscription(target, mode, now)]
    else if subscribers[index].mode == mode then subscribers
    else subscribers[index := Subscription(target, mode, now)]
  }

  /** `splice` of the first subscriber with the key. */
  function RemovedKey(subscribers: seq<Subscription>, key: string): seq<Subscription> {
    var index := FindKey(subscribers, key);
    if index == -1 then subscribers else subscribers[..index] + subscribers[index + 1..]
  }

  /** Position `i` holds the first entry with the target's key. */
  ghost predicate FirstWithKey(subscribers: seq<Subscription>, key: string, i: nat) {
    i < |subscribers| && Key(subscribers[i].target) == key && forall j | 0 <= j < i :: Key(subscribers[j].target) != key
  }

  /** An upsert changes the first entry with the target's key, unless it has the mode, and appends if there is none. */
  lemma UpsertMeans(subscribers: seq<Subscription>, target: Target, mode: Mode, now: int, i: nat)
    ensures FirstWithKey(subscribers, Key(target), i) ==>
              Upserted(subscribers, target, mode, now) ==
              if subscribers[i].mode == mode then subscribers else subscribers[i := Subscription(target, mode, now)]
    ensures (forall j | 0 <= j < |subscribers| :: Key(subscribers[j].target) != Key(target)) ==>
              Upserted(subscribers, target, mode, now) == subscribers + [Subscription(target, mode, now)]
  {
  }

  /** A removal takes out the first entry with the key, if there is one, and nothing else. */
  lemma RemoveMeans(subscribers: seq<Subscription>, key: string, i: nat)
    ensures FirstWithKey(subscribers, key, i) ==>
              RemovedKey(subscribers, key) == subscribers[..i] + subscribers[i + 1..]
    ensures (forall j | 0 <= j < |subscribers| :: Key(subscribers[j].target) != key) ==>
              RemovedKey(subscribers, key) == subscribers
  {
  }

  lemma UpsertedHas(subscribers: seq<Subscription>, target: Target, mode: Mode, now: int, s: Subscription)
    requires s in Upserted(subscribers, target, mode, now)
    ensures s in subscribers || s == Subscription(target, mode, now)
  {
  }

  lemma RemovedHas(subscribers: seq<Subscription>, key: string, s: Subscription)
    requires s in RemovedKey(subscribers, key)
    ensures s in subscribers
  {
  }

  lemma UpsertKeepsDistinct(subscribers: seq<Subscription>, target: Target, mode: Mode, now: int)
    requires KeysDistinct(subscribers)
    ensures KeysDistinct(Upserted(subscribers, target, mode, now))
  {
  }

  lemma RemoveKeepsDistinct(subscribers: seq<Subscription>, key: string)
    requires KeysDistinct(subscribers)
    ensures KeysDistinct(RemovedKey(subscribers, key))
  {
  }

  // ----- a target that is not in normal form

  function Reread(subscribers: seq<Subscription>, now: int): seq<Subscription> {
    NormalizeItems(EncodeItems(subscribers), now)
  }

  function Renormalized(s: Subscription): Subscription {
    s.(target := NormalForm(s.target))
  }

  function Renormalize(subscribers: seq<Subscription>): (r: seq<Subscription>)
    ensures |r| == |subscribers|
    ensures forall i | 0 <= i < |subscribers| :: r[i] == Renormalized(subscribers[i])
  {
    seq(|subscribers|, i requires 0 <= i < |subscribers| => Renormalized(subscribers[i]))
  }

  predicate HasAddress(s: Subscription) {
    Trim(s.target.to) != ""
  }

  /** Writing and reading normalises each target and keeps the list otherwise. */
  lemma RereadUsable(subscribers: seq<Subscription>, now: int)
    requires forall i | 0 <= i < |subscribers| :: HasAddress(subscribers[i])
    ensures Reread(subscribers, now) == Renormalize(subscribers)
  {
    var f := item => NormalizeItem(item, now);
    forall i | 0 <= i < |subscribers| ensures f(EncodeItems(subscribers)[i]) == Some(Renormalized(subscribers[i])) {
      assert HasAddress(subscribers[i]);
      NormalizeEncoded(subscribers[i], now);
    }
    CollectAll(EncodeItems(subscribers), f, Renormalize(subscribers));
  }

  lemma NormalIsFixed(s: Subscription)
    requires NormalTarget(s.target)
    ensures HasAddress(s) && Renormalized(s) == s
  {
    NormalFormIff(s.target);
  }

  /** Where an upsert puts its target, if it changes anything. */
  function UpsertIndex(subscribers: seq<Subscription>, target: Target): nat {
    var index := FindKey(subscribers, Key(target));
    if index == -1 then |subscribers| else index
  }

  /** The first entry with the target's key has the mode already: the upsert changes nothing. */
  predicate AlreadySet(subscribers: seq<Subscription>, target: Target, mode: Mode) {
    var index := FindKey(subscribers, Key(target));
    index != -1 && subscribers[index].mode == mode
  }

  /** Another entry already has the key that the target gets once it is read back. */
  ghost predicate KeyTaken(subscribers: seq<Subscription>, target: Target) {
    exists j :: 0 <= j < |subscribers| && j != UpsertIndex(subscribers, target)
        && Key(subscribers[j].target) == Key(NormalForm(target))
  }

  /** For any target with a usable address, keys stay distinct in the file exactly when the upsert changes nothing or
      no other entry has the key of the target's normal form. */
  lemma UpsertReadBackIff(subscribers: seq<Subscription>, target: Target, mode: Mode, now: int, later: int)
    requires NormalSubscribers(subscribers) && KeysDistinct(subscribers) && Trim(target.to) != ""
    ensures KeysDistinct(Reread(Upserted(subscribers, target, mode, now), later))
            <==> AlreadySet(subscribers, target, mode) || !KeyTaken(subscribers, target)
  {
    var next := Upserted(subscribers, target, mode, now);
    if AlreadySet(subscribers, target, mode) {
      RereadNormal(subscribers, later);
    } else {
      UpsertedShape(subscribers, target, mode, now);
      var index := UpsertIndex(subscribers, target);
      ChangedReread(subscribers, next, index, target, later);
      RereadOfUpsert(subscribers, target, index, next, Reread(next, later));
    }
  }

  lemma TrimEndBlank(s: string)
    requires IsTrimmed(s) && s != ""
    ensures Trim(s + " ") == s
  {
    var t := s + " ";
    assert t[0] == s[0] && TrimStart(t) == t && t[..|t| - 1] == s;
    assert TrimEnd(s) == s;
  }

  /** A chat is subscribed under an account; a command comes with the same account and a blank after it, and is stored
      beside it. When the file is read back both have the same key. */
  lemma PaddedAccountSharesKey(to: string, account: string, kept: Target, padded: Target, listed: seq<Subscription>,
                               now: int, later: int)
    requires IsNormalText(to) && IsNormalText(account)
    requires kept == Target(to, Some(account), None) && padded == Target(to, Some(account + " "), None)
    requires listed == [Subscription(kept, Persistent, now)]
    ensures NormalSubscribers(listed) && KeysDistinct(listed)
    ensures ResolveNotifyTarget(Context("telegram", to, "", "", account + " ", None)) == Some(padded)
    ensures !KeysDistinct(Reread(Upserted(listed, padded, Persistent, now), later))
  {
    PaddedTarget(to, account);
    OneEntryKeyTaken(listed, padded);
    UpsertReadBackIff(listed, padded, Persistent, now, later);
  }

  lemma PaddedTarget(to: string, account: string)
    requires IsNormalText(to) && IsNormalText(account)
    ensures var kept, padded := Target(to, Some(account), None), Target(to, Some(account + " "), None);
            && NormalForm(padded) == kept && Key(padded) != Key(kept)
            && ResolveNotifyTarget(Context("telegram", to, "", "", account + " ", None)) == Some(padded)
  {
    TrimEndBlank(account);
    LongerKey(to, account, account + " ");
    assert NormalizeText(EncodeText(Some(account + " "))) == Some(account);
  }

  lemma LongerKey(to: string, account: string, longer: string)
    requires |longer| > |account|
    ensures Key(Target(to, Some(longer), None)) != Key(Target(to, Some(account), None))
  {
    assert |Key(Target(to, Some(account), None))| == |to| + |account| + 2;
    assert |Key(Target(to, Some(longer), None))| == |to| + |longer| + 2;
  }

  lemma OneEntryKeyTaken(listed: seq<Subscription>, padded: Target)
    requires |listed| == 1 && Key(padded) != Key(listed[0].target) && NormalForm(padded) == listed[0].target
    ensures KeyTaken(listed, padded) && FindKey(listed, Key(padded)) == -1
  {
    assert UpsertIndex(listed, padded) == 1 && Key(listed[0].target) == Key(NormalForm(padded));
  }

  /** So it does for account `a` of chat `1`. */
  lemma ChatOneSharesKey(now: int, later: int)
    ensures var kept, padded := Target("1", Some("a"), None), Target("1", Some("a" + " "), None);
            !KeysDistinct(Reread(Upserted([Subscription(kept, Persistent, now)], padded, Persistent, now), later))
  {
    var kept, padded := Target("1", Some("a"), None), Target("1", Some("a" + " "), None);
    PaddedAccountSharesKey("1", "a", kept, padded, [Subscription(kept, Persistent, now)], now, later);
  }

  lemma ChangedReread(subscribers: seq<Subscription>, next: seq<Subscription>, index: nat, target: Target, later: int)
    requires NormalSubscribers(subscribers) && Trim(target.to) != ""
    requires index < |next| && (|next| == |subscribers| || |next| == |subscribers| + 1 == index + 1)
    requires next[index].target == target
    requires forall i | 0 <= i < |subscribers| && i != index :: next[i] == subscribers[i]
    ensures var r := Reread(next, later);
            && |r| == |next| && r[index].target == NormalForm(target)
            && forall i | 0 <= i < |subscribers| && i != index :: r[i] == subscribers[i]
  {
    forall i | 0 <= i < |next| ensures HasAddress(next[i]) && (i != index ==> Renormalized(next[i]) == subscribers[i]) {
      if i != index {
        NormalIsFixed(subscribers[i]);
      }
    }
    RereadUsable(next, later);
  }

  lemma UpsertedShape(subscribers: seq<Subscription>, target: Target, mode: Mode, now: int)
    requires !AlreadySet(subscribers, target, mode)
    ensures var next, index := Upserted(subscribers, target, mode, now), UpsertIndex(subscribers, target);
            && index < |next| && (|next| == |subscribers| || |next| == |subscribers| + 1 == index + 1)
            && next[index] == Subscription(target, mode, now)
            && forall i | 0 <= i < |subscribers| && i != index :: next[i] == subscribers[i]
  {
  }

  lemma RereadOfUpsert(subscribers: seq<Subscription>, target: Target, index: nat, next: seq<Subscription>,
                       r: seq<Subscription>)
    requires KeysDistinct(subscribers) && index == UpsertIndex(subscribers, target)
    requires |r| == |next| && index < |r| && (|next| == |subscribers| || |next| == |subscribers| + 1 == index + 1)
    requires r[index].target == NormalForm(target)
    requires forall i | 0 <= i < |subscribers| && i != index :: r[i] == subscribers[i]
    ensures KeysDistinct(r) <==> !KeyTaken(subscribers, target)
  {
    if KeyTaken(subscribers, target) {
      var j :| 0 <= j < |subscribers| && j != index && Key(subscribers[j].target) == Key(NormalForm(target));
      assert Key(r[j].target) == Key(r[index].target);
    }
  }
}
