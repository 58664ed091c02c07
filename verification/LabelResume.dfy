/** Labelling with a checkpoint after each batch: where the loops stop and what they leave. */
module LabelResume {
  import opened Common
  import opened LabelBatches

  datatype ItemId = Issue(number: int) | Pull(number: int)

  /** `exempt` items (pull requests that already carry the skill label) are marked done without being classified. */
  datatype Item = Item(id: ItemId, exempt: bool)

  datatype StateFile = Absent | Unreadable | Saved(issues: seq<int>, pulls: seq<int>)

  /** `loadState`; an unreadable file starts fresh. */
  function Load(file: StateFile): set<ItemId> {
    if file.Saved? then (set n | n in file.issues :: Issue(n)) + (set n | n in file.pulls :: Pull(n)) else {}
  }

  /** A readable file loads as the issues and pull requests that it lists, and any other file as none. */
  lemma LoadMeans(file: StateFile, n: int)
    ensures Issue(n) in Load(file) <==> file.Saved? && n in file.issues
    ensures Pull(n) in Load(file) <==> file.Saved? && n in file.pulls
  {
  }

  ghost predicate Ascending(xs: seq<int>) {
    forall i, j | 0 <= i < j < |xs| :: xs[i] < xs[j]
  }

  /** The snapshot of a set of items: both number lists ascending, and loading it gives the set. */
  ghost predicate IsSnapshot(known: set<ItemId>, file: StateFile) {
    file.Saved? && Ascending(file.issues) && Ascending(file.pulls) && Load(file) == known
  }

  function InsertNumber(xs: seq<int>, n: int): (r: seq<int>)
    ensures forall m :: m in r <==> m == n || m in xs
  {
    if xs == [] || n < xs[0] then [n] + xs
    else
      assert forall m :: m in xs <==> m == xs[0] || m in xs[1..];
      [xs[0]] + InsertNumber(xs[1..], n)
  }

  lemma {:induction false} InsertNumberAscending(xs: seq<int>, n: int)
    requires Ascending(xs) && n !in xs
    ensures Ascending(InsertNumber(xs, n))
  {
    if xs != [] && !(n < xs[0]) {
      InsertNumberAscending(xs[1..], n);
      var rest := InsertNumber(xs[1..], n);
      forall i | 0 <= i < |rest| ensures xs[0] < rest[i] {
        assert rest[i] in rest;
      }
    }
  }

  /** `buildStateSnapshot`. */
  method BuildStateSnapshot(known: set<ItemId>) returns (file: StateFile)
    ensures IsSnapshot(known, file)
  {
    var issues, pulls := [], [];
    var todo := known;
    while todo != {}
      invariant todo <= known
      invariant Ascending(issues) && Ascending(pulls)
      invariant forall n :: n in issues <==> Issue(n) in known - todo
      invariant forall n :: n in pulls <==> Pull(n) in known - todo
      decreases todo
    {
      var id :| id in todo;
      todo := todo - {id};
      match id
      case Issue(n) => InsertNumberAscending(issues, n); issues := InsertNumber(issues, n);
      case Pull(n) => InsertNumberAscending(pulls, n); pulls := InsertNumber(pulls, n);
    }
    file := Saved(issues, pulls);
    forall id ensures id in Load(file) <==> id in known {
      assert id in Load(file) <==> (id.Issue? && id.number in issues) || (id.Pull? && id.number in pulls);
    }
  }

  /** Two snapshots of one set are the same file. */
  lemma SnapshotUnique(known: set<ItemId>, a: StateFile, b: StateFile)
    requires IsSnapshot(known, a) && IsSnapshot(known, b)
    ensures a == b
  {
    forall n ensures n in a.issues <==> n in b.issues {
      assert Issue(n) in Load(a) <==> Issue(n) in Load(b);
    }
    forall n ensures n in a.pulls <==> n in b.pulls {
      assert Pull(n) in Load(a) <==> Pull(n) in Load(b);
    }
    AscendingUnique(a.issues, b.issues);
    AscendingUnique(a.pulls, b.pulls);
  }

  lemma {:induction false} AscendingUnique(xs: seq<int>, ys: seq<int>)
    requires Ascending(xs) && Ascending(ys) && forall n :: n in xs <==> n in ys
    ensures xs == ys
  {
    assert xs != [] ==> xs[0] in xs;
    assert ys != [] ==> ys[0] in ys;
    if xs != [] {
      LeastFirst(xs, ys);
      forall n ensures n in xs[1..] <==> n in ys[1..] {
        assert n in xs <==> n == xs[0] || n in xs[1..];
        assert n in ys <==> n == ys[0] || n in ys[1..];
      }
      AscendingUnique(xs[1..], ys[1..]);
    }
  }

  lemma LeastFirst(xs: seq<int>, ys: seq<int>)
    requires xs != [] && ys != [] && Ascending(xs) && Ascending(ys) && xs[0] in ys && ys[0] in xs
    ensures xs[0] == ys[0]
    ensures xs[0] !in xs[1..] && ys[0] !in ys[1..]
  {
  }

  lemma {:induction false} SnapshotExists(known: set<ItemId>)
    ensures exists file :: IsSnapshot(known, file)
    decreases known
  {
    if known == {} {
      assert IsSnapshot(known, Saved([], []));
    } else {
      var id :| id in known;
      var rest := known - {id};
      SnapshotExists(rest);
      var file :| IsSnapshot(rest, file);
      var more := if id.Issue? then Saved(InsertNumber(file.issues, id.number), file.pulls)
                  else Saved(file.issues, InsertNumber(file.pulls, id.number));
      assert Issue(id.number) in Load(file) <==> id.number in file.issues;
      assert Pull(id.number) in Load(file) <==> id.number in file.pulls;
      if id.Issue? {
        InsertNumberAscending(file.issues, id.number);
      } else {
        InsertNumberAscending(file.pulls, id.number);
      }
      forall x ensures x in Load(more) <==> x in known {
        assert x in Load(more) <==> x in Load(file) || x == id;
      }
      assert IsSnapshot(known, more);
    }
  }

  ghost function SnapshotOf(known: set<ItemId>): (file: StateFile)
    ensures IsSnapshot(known, file)
  {
    SnapshotExists(known);
    var file :| IsSnapshot(known, file);
    file
  }

  // ----- one batch

  function Ids(items: seq<Item>): set<ItemId> {
    set item | item in items :: item.id
  }

  function ExemptIds(items: seq<Item>): set<ItemId> {
    set item | item in items && item.exempt :: item.id
  }

  predicate NeedsLabel(item: Item) {
    !item.exempt
  }

  function IdOf(item: Item): ItemId {
    item.id
  }

  /** The items that go to the classifier, in order. */
  function Classifiable(items: seq<Item>): seq<ItemId> {
    FilterMap(items, NeedsLabel, IdOf)
  }

  lemma ClassifiableNext(items: seq<Item>, k: nat)
    requires k < |items|
    ensures Classifiable(items[..k + 1]) == Classifiable(items[..k]) + if items[k].exempt then [] else [items[k].id]
  {
    assert items[..k + 1][..k] == items[..k];
  }

  lemma ClassifiableIff(items: seq<Item>, id: ItemId)
    ensures id in Classifiable(items) ==> id in Ids(items)
    ensures id in Ids(items) ==> id in Classifiable(items) || id in ExemptIds(items)
  {
    FilterMapIff(items, NeedsLabel, IdOf, id);
  }

  /** The items of a batch that are not done yet. */
  function Pending(items: seq<Item>, known: set<ItemId>): (r: seq<Item>)
    ensures |r| <= |items|
  {
    FilterMapLength(items, NotDone(known), Same);
    FilterMap(items, NotDone(known), Same)
  }

  function NotDone(known: set<ItemId>): Item -> bool {
    (item: Item) => item.id !in known
  }

  function Same(item: Item): Item {
    item
  }

  lemma PendingIff(items: seq<Item>, known: set<ItemId>, item: Item)
    ensures item in Pending(items, known) <==> item in items && item.id !in known
  {
    FilterMapIff(items, NotDone(known), Same, item);
  }

  /** What is pending of two lists of items is what is pending of each, in order; of one item, itself unless done. */
  lemma PendingLaws(xs: seq<Item>, ys: seq<Item>, item: Item, known: set<ItemId>)
    ensures Pending(xs + ys, known) == Pending(xs, known) + Pending(ys, known)
    ensures Pending([item], known) == if item.id in known then [] else [item]
  {
    FilterMapConcat(xs, ys, NotDone(known), Same);
    FilterMapOne(item, NotDone(known), Same);
  }

  lemma PendingIds(batch: seq<Item>, known: set<ItemId>)
    ensures Ids(Pending(batch, known)) == Ids(batch) - known
    ensures Pending(batch, known) == [] ==> Ids(batch) <= known
  {
    forall item ensures item in Pending(batch, known) <==> item in batch && item.id !in known {
      PendingIff(batch, known, item);
    }
    forall id ensures id in Ids(Pending(batch, known)) <==> id in Ids(batch) - known {
      if id in Ids(batch) - known {
        var item :| item in batch && item.id == id;
        assert item in Pending(batch, known);
      }
    }
  }

  /** The classification loop over the pending items of a batch; `stopped` says that a classification threw. */
  datatype Labelled = Labelled(known: set<ItemId>, classified: seq<ItemId>, done: nat, stopped: bool)

  function LabelItem(l: Labelled, item: Item, fails: nat -> bool): Labelled {
    var attempted := if item.exempt then l.classified else l.classified + [item.id];
    if !item.exempt && fails(|attempted|) then Labelled(l.known, attempted, l.done, true)
    else Labelled(l.known + {item.id}, attempted, l.done + 1, false)
  }

  /** After the first `k` pending items; `fails` says which attempt throws. */
  function Label(pending: seq<Item>, k: nat, known: set<ItemId>, classified: seq<ItemId>, fails: nat -> bool): Labelled
    requires k <= |pending|
  {
    if k == 0 then Labelled(known, classified, 0, false) else
      var l := Label(pending, k - 1, known, classified, fails);
      if l.stopped then l else LabelItem(l, pending[k - 1], fails)
  }

  lemma {:induction false} LabelStopped(pending: seq<Item>, k: nat, n: nat, known: set<ItemId>, classified: seq<ItemId>,
                                        fails: nat -> bool)
    requires k <= n <= |pending| && Label(pending, k, known, classified, fails).stopped
    ensures Label(pending, n, known, classified, fails) == Label(pending, k, known, classified, fails)
  {
    if k < n {
      LabelStopped(pending, k, n - 1, known, classified, fails);
    }
  }

  method LabelPending(pending: seq<Item>, known: set<ItemId>, classified: seq<ItemId>, fails: nat -> bool)
    returns (l: Labelled)
    ensures l == Label(pending, |pending|, known, classified, fails)
  {
    l := Labelled(known, classified, 0, false);
    for k := 0 to |pending|
      invariant l == Label(pending, k, known, classified, fails) && !l.stopped
    {
      var item := pending[k];
      if !item.exempt {
        var attempted := l.classified + [item.id];
        if fails(|attempted|) {
          l := l.(classified := attempted, stopped := true);
          LabelStopped(pending, k + 1, |pending|, known, classified, fails);
          return;
        }
        l := l.(classified := attempted);
      }
      l := l.(known := l.known + {item.id}, done := l.done + 1);
    }
  }

  /** Items are classified in order and marked done, exempt ones without classification, up to the one whose
      classification throws. */
  ghost predicate LabelledUpTo(pending: seq<Item>, k: nat, known: set<ItemId>, classified: seq<ItemId>, l: Labelled)
    requires k <= |pending|
  {
    && l.done <= k && l.known == known + Ids(pending[..l.done])
    && (!l.stopped ==> l.done == k && l.classified == classified + Classifiable(pending[..k]))
    && (l.stopped ==> l.done < k && NeedsLabel(pending[l.done])
                      && l.classified == classified + Classifiable(pending[..l.done + 1]))
  }

  lemma {:induction false} LabelledFacts(pending: seq<Item>, k: nat, known: set<ItemId>, classified: seq<ItemId>,
                                         fails: nat -> bool)
    requires k <= |pending|
    ensures LabelledUpTo(pending, k, known, classified, Label(pending, k, known, classified, fails))
  {
    if k == 0 {
      assert pending[..0] == [] && classified + [] == classified;
    } else {
      var l := Label(pending, k - 1, known, classified, fails);
      LabelledFacts(pending, k - 1, known, classified, fails);
      if !l.stopped {
        LabelledItem(pending, k - 1, known, classified, l, fails);
      }
    }
  }

  lemma LabelledItem(pending: seq<Item>, k: nat, known: set<ItemId>, classified: seq<ItemId>, l: Labelled,
                     fails: nat -> bool)
    requires k < |pending| && !l.stopped && LabelledUpTo(pending, k, known, classified, l)
    ensures LabelledUpTo(pending, k + 1, known, classified, LabelItem(l, pending[k], fails))
  {
    var item := pending[k];
    ClassifiableNext(pending, k);
    IdsNext(pending, k);
    Associate(classified, Classifiable(pending[..k]), if item.exempt then [] else [item.id]);
    assert l.classified + [] == l.classified;
  }

  lemma IdsNext(items: seq<Item>, k: nat)
    requires k < |items|
    ensures Ids(items[..k + 1]) == Ids(items[..k]) + {items[k].id}
  {
    assert items[..k + 1] == items[..k] + [items[k]];
    assert forall item :: item in items[..k + 1] <==> item in items[..k] || item == items[k];
  }

  // ----- one loop over batches

  /** `stopped` says that the loop threw, and `torn` that it did so while writing the file. */
  datatype Progress = Progress(
    known: set<ItemId>, file: StateFile, classified: seq<ItemId>, scanned: nat, processed: nat, skipped: nat,
    stopped: bool, torn: bool)

  /** One kind of item: the batches that were fetched, whether the listing then ended normally rather than by a failing
      request, which classification attempt throws, and how the write of each checkpoint ends. */
  datatype Phase = Phase(batches: seq<seq<Item>>, completed: bool, fails: nat -> bool, writes: nat -> WriteOutcome)

  /** A batch up to its checkpoint. */
  function LabelledBatch(r0: Progress, batch: seq<Item>, fails: nat -> bool): Progress {
    var pending := Pending(batch, r0.known);
    var l := Label(pending, |pending|, r0.known, r0.classified, fails);
    Progress(l.known, r0.file, l.classified, r0.scanned + |batch|, r0.processed + l.done,
             r0.skipped + |batch| - |pending|, l.stopped, false)
  }

  ghost function Checkpoint(r: Progress, write: WriteOutcome): Progress {
    match write
    case Whole => r.(file := SnapshotOf(r.known))
    case Torn => r.(file := Unreadable, stopped := true, torn := true)
    case Refused => r.(stopped := true)
  }

  ghost function BatchOf(r0: Progress, batch: seq<Item>, b: nat, dryRun: bool, fails: nat -> bool,
                         writes: nat -> WriteOutcome): Progress
  {
    var r := LabelledBatch(r0, batch, fails);
    if r.stopped || dryRun || Pending(batch, r0.known) == [] then r else Checkpoint(r, writes(b))
  }

  /** The loop over the first `n` batches. */
  ghost function PhaseOf(known: set<ItemId>, file: StateFile, phase: Phase, n: nat, dryRun: bool): Progress
    requires n <= |phase.batches|
  {
    if n == 0 then Progress(known, file, [], 0, 0, 0, false, false)
    else NextBatch(PhaseOf(known, file, phase, n - 1, dryRun), phase, n - 1, dryRun)
  }

  ghost function NextBatch(r: Progress, phase: Phase, b: nat, dryRun: bool): Progress
    requires b < |phase.batches|
  {
    if r.stopped then r else BatchOf(r, phase.batches[b], b, dryRun, phase.fails, phase.writes)
  }

  ghost function WholePhase(known: set<ItemId>, file: StateFile, phase: Phase, dryRun: bool): Progress {
    PhaseOf(known, file, phase, |phase.batches|, dryRun)
  }

  lemma StaysStopped(r: Progress, phase: Phase, b: nat, dryRun: bool)
    requires r.stopped && b < |phase.batches|
    ensures NextBatch(r, phase, b, dryRun) == r
  {
  }

  lemma {:induction false} PhaseStopped(known: set<ItemId>, file: StateFile, phase: Phase, k: nat, n: nat, dryRun: bool)
    requires k <= n <= |phase.batches| && PhaseOf(known, file, phase, k, dryRun).stopped
    ensures PhaseOf(known, file, phase, n, dryRun) == PhaseOf(known, file, phase, k, dryRun)
  {
    if k < n {
      PhaseStopped(known, file, phase, k, n - 1, dryRun);
      StaysStopped(PhaseOf(known, file, phase, n - 1, dryRun), phase, n - 1, dryRun);
    }
  }

  /** The body of the batch loop: classify what is pending, then write the checkpoint. */
  method RunBatch(r0: Progress, batch: seq<Item>, b: nat, dryRun: bool, fails: nat -> bool, writes: nat -> WriteOutcome)
    returns (r: Progress)
    ensures r == BatchOf(r0, batch, b, dryRun, fails, writes)
  {
    var pending := Pending(batch, r0.known);
    var skippedInBatch := |batch| - |pending|;
    var l := LabelPending(pending, r0.known, r0.classified, fails);
    r := Progress(l.known, r0.file, l.classified, r0.scanned + |batch|, r0.processed + l.done,
                  r0.skipped + skippedInBatch, l.stopped, false);
    if l.stopped {
      return;
    }
    if !dryRun && |pending| > 0 {
      var saved := BuildStateSnapshot(l.known);
      SnapshotUnique(l.known, saved, SnapshotOf(l.known));
      match writes(b) {
        case Whole => r := r.(file := saved);
        case Torn => r := r.(file := Unreadable, stopped := true, torn := true);
        case Refused => r := r.(stopped := true);
      }
    }
  }

  /** The phase is what fetching the pages yields. */
  ghost predicate FetchedAs(pages: seq<Page<Item>>, limit: Option<nat>, phase: Phase) {
    exists batches :: Delivered(pages, limit, batches, phase.completed) && phase.batches == ItemsOf(batches)
  }

  /** What one loop meets: the answered pages, which classification throws, and how the write of each checkpoint
      ends. */
  datatype World = World(pages: seq<Page<Item>>, fails: nat -> bool, writes: nat -> WriteOutcome)

  /** One batch loop of `main`, over batches that are fetched page by page. */
  method RunPhase(known: set<ItemId>, file: StateFile, world: World, limit: Option<nat>, dryRun: bool)
    returns (r: Progress, completed: bool, ghost phase: Phase)
    ensures FetchedAs(world.pages, limit, phase)
    ensures phase.completed == completed && phase.fails == world.fails && phase.writes == world.writes
    ensures r == WholePhase(known, file, phase, dryRun)
  {
    var batches;
    batches, completed := FetchBatches(world.pages, limit);
    phase := Phase(ItemsOf(batches), completed, world.fails, world.writes);
    r := Progress(known, file, [], 0, 0, 0, false, false);
    for b := 0 to |batches|
      invariant r == PhaseOf(known, file, phase, b, dryRun) && !r.stopped
    {
      r := RunBatch(r, batches[b].items, b, dryRun, world.fails, world.writes);
      if r.stopped {
        PhaseStopped(known, file, phase, b + 1, |batches|, dryRun);
        return;
      }
    }
  }

  // ----- what a loop promises

  function AllIds(batches: seq<seq<Item>>): set<ItemId> {
    set b, item | b in batches && item in b :: item.id
  }

  function AllExemptIds(batches: seq<seq<Item>>): set<ItemId> {
    set b, item | b in batches && item in b && item.exempt :: item.id
  }

  function Total(batches: seq<seq<Item>>): nat {
    if batches == [] then 0 else Total(batches[..|batches| - 1]) + |batches[|batches| - 1]|
  }

  /** How many items of the batches are already done when their batch comes up. */
  function SkippedIn(known: set<ItemId>, batches: seq<seq<Item>>): nat {
    if batches == [] then 0 else
      var init, last := batches[..|batches| - 1], batches[|batches| - 1];
      SkippedIn(known, init) + |last| - |Pending(last, known + AllIds(init))|
  }

  /** The items of some batches: all ids, the exempt ones, how many items, and how many are skipped. */
  datatype Tally = Tally(ids: set<ItemId>, exempt: set<ItemId>, items: nat, skipped: nat)

  function TallyOf(known: set<ItemId>, batches: seq<seq<Item>>): Tally {
    Tally(AllIds(batches), AllExemptIds(batches), Total(batches), SkippedIn(known, batches))
  }

  function Added(t: Tally, known: set<ItemId>, batch: seq<Item>): Tally {
    Tally(t.ids + Ids(batch), t.exempt + ExemptIds(batch), t.items + |batch|,
          t.skipped + |batch| - |Pending(batch, known + t.ids)|)
  }

  /** What a loop promises wherever it stops: in particular nothing is marked done that was neither classified nor
      exempt. */
  ghost predicate PhaseSafe(known: set<ItemId>, file: StateFile, t: Tally, dryRun: bool, r: Progress) {
    && known <= r.known <= known + t.ids
    && (forall id | id in r.classified :: id !in known && id in t.ids)
    && (forall id | id in r.known && id !in known :: id in r.classified || id in t.exempt)
    && r.processed + r.skipped <= r.scanned <= t.items
    && (r.torn ==> r.stopped)
    && FileHolds(known, file, dryRun, r)
  }

  /** What it promises when it gets past all of its batches. */
  ghost predicate PhaseDone(known: set<ItemId>, file: StateFile, t: Tally, dryRun: bool, r: Progress) {
    && r.scanned == r.processed + r.skipped == t.items
    && r.skipped == t.skipped
    && r.known == known + t.ids
    && (!dryRun ==> (r.file == file && r.known == known) || IsSnapshot(r.known, r.file))
  }

  /** Unless its write was torn, the file is untouched or holds at least what was known at the start. */
  ghost predicate FileHolds(known: set<ItemId>, file: StateFile, dryRun: bool, r: Progress) {
    if r.torn then r.file == Unreadable && !dryRun
    else r.file == file || (!dryRun && r.file.Saved? && known <= Load(r.file) <= r.known)
  }

  /** What one batch adds, wherever the run stops. */
  ghost predicate BatchSafe(r0: Progress, batch: seq<Item>, dryRun: bool, r: Progress) {
    && r0.known <= r.known <= r0.known + Ids(batch)
    && r0.classified <= r.classified
    && (forall id | id in r.classified :: id in r0.classified || (id in Ids(batch) && id !in r0.known))
    && (forall id | id in r.known && id !in r0.known :: id in r.classified || id in ExemptIds(batch))
    && r.scanned == r0.scanned + |batch|
    && r.processed + r.skipped <= r0.processed + r0.skipped + |batch|
    && (r.torn ==> r.stopped)
    && (if r.torn then r.file == Unreadable && !dryRun
        else r.file == r0.file || (!dryRun && IsSnapshot(r.known, r.file)))
  }

  /** What it adds when the run gets past it. */
  ghost predicate BatchDone(r0: Progress, batch: seq<Item>, dryRun: bool, r: Progress) {
    var pending := Pending(batch, r0.known);
    && r.classified == r0.classified + Classifiable(pending)
    && r.skipped == r0.skipped + |batch| - |pending|
    && r.processed == r0.processed + |pending|
    && r.known == r0.known + Ids(batch)
    && (!dryRun ==> (r.file == r0.file && r.known == r0.known) || IsSnapshot(r.known, r.file))
  }

  lemma BatchPromises(r0: Progress, batch: seq<Item>, b: nat, dryRun: bool, fails: nat -> bool,
                      writes: nat -> WriteOutcome)
    ensures var r := BatchOf(r0, batch, b, dryRun, fails, writes);
            BatchSafe(r0, batch, dryRun, r) && (!r.stopped ==> BatchDone(r0, batch, dryRun, r))
  {
    var r := LabelledBatch(r0, batch, fails);
    LabelledBatchPromises(r0, batch, fails);
    if !(r.stopped || dryRun || Pending(batch, r0.known) == []) {
      CheckpointPromises(r0, batch, r, writes(b));
    }
  }

  /** Before its checkpoint a batch has left the file alone, and has done its items unless a classification threw. */
  ghost predicate LabelledOnly(r0: Progress, batch: seq<Item>, r: Progress) {
    && BatchSafe(r0, batch, true, r) && r.file == r0.file
    && (!r.stopped ==> BatchDone(r0, batch, true, r))
  }

  lemma LabelledBatchPromises(r0: Progress, batch: seq<Item>, fails: nat -> bool)
    ensures LabelledOnly(r0, batch, LabelledBatch(r0, batch, fails))
    ensures Pending(batch, r0.known) == [] ==> LabelledBatch(r0, batch, fails).known == r0.known
  {
    var pending := Pending(batch, r0.known);
    var l := Label(pending, |pending|, r0.known, r0.classified, fails);
    PendingIds(batch, r0.known);
    LabelledFacts(pending, |pending|, r0.known, r0.classified, fails);
    assert pending[..|pending|] == pending;
    LabelledIds(batch, r0, pending, l.done, l.classified);
  }

  lemma CheckpointPromises(r0: Progress, batch: seq<Item>, r: Progress, write: WriteOutcome)
    requires LabelledOnly(r0, batch, r) && !r.stopped
    ensures BatchSafe(r0, batch, false, Checkpoint(r, write))
    ensures !Checkpoint(r, write).stopped ==> BatchDone(r0, batch, false, Checkpoint(r, write))
  {
  }

  /** After `done` of the pending items: what was classified is pending, and what was done was classified or exempt. */
  lemma LabelledIds(batch: seq<Item>, r0: Progress, pending: seq<Item>, done: nat, classified: seq<ItemId>)
    requires pending == Pending(batch, r0.known) && done <= |pending|
    requires done == |pending| ==> classified == r0.classified + Classifiable(pending)
    requires done < |pending| ==> classified == r0.classified + Classifiable(pending[..done + 1])
    ensures Ids(pending[..done]) <= Ids(pending) && r0.classified <= classified
    ensures forall id | id in classified :: id in r0.classified || id in Ids(pending)
    ensures forall id | id in Ids(pending[..done]) :: id in classified || id in ExemptIds(batch)
  {
    var tried := if done < |pending| then pending[..done + 1] else pending;
    forall id {
      ClassifiableIff(tried, id);
    }
    assert forall item | item in pending[..done] :: item in tried;
    forall item | item in tried ensures item in batch {
      PendingIff(batch, r0.known, item);
    }
    assert forall id | id in ExemptIds(tried) :: id in ExemptIds(batch);
  }

  lemma OneMoreBatch(known: set<ItemId>, done: seq<seq<Item>>, batch: seq<Item>)
    ensures TallyOf(known, done + [batch]) == Added(TallyOf(known, done), known, batch)
  {
    assert (done + [batch])[..|done|] == done;
    assert forall b :: b in done + [batch] <==> b in done || b == batch;
    assert AllIds(done + [batch]) == AllIds(done) + Ids(batch);
    assert AllExemptIds(done + [batch]) == AllExemptIds(done) + ExemptIds(batch);
  }

  lemma StepSafe(known: set<ItemId>, file: StateFile, t: Tally, batch: seq<Item>, dryRun: bool, r0: Progress,
                 r: Progress)
    requires PhaseSafe(known, file, t, dryRun, r0) && PhaseDone(known, file, t, dryRun, r0) && !r0.torn
    requires BatchSafe(r0, batch, dryRun, r)
    ensures PhaseSafe(known, file, Added(t, known, batch), dryRun, r)
  {
    FileStep(known, file, dryRun, r0, r);
    forall id | id in r.known && id !in known ensures id in r.classified || id in t.exempt + ExemptIds(batch) {
      assert id in r0.classified ==> id in r.classified;
    }
  }

  lemma StepDone(known: set<ItemId>, file: StateFile, t: Tally, batch: seq<Item>, dryRun: bool, r0: Progress,
                 r: Progress)
    requires PhaseDone(known, file, t, dryRun, r0) && r.scanned == r0.scanned + |batch|
    requires BatchDone(r0, batch, dryRun, r)
    ensures PhaseDone(known, file, Added(t, known, batch), dryRun, r)
  {
  }

  lemma FileStep(known: set<ItemId>, file: StateFile, dryRun: bool, r0: Progress, r: Progress)
    requires FileHolds(known, file, dryRun, r0) && !r0.torn && known <= r0.known <= r.known
    requires if r.torn then r.file == Unreadable && !dryRun
             else r.file == r0.file || (!dryRun && IsSnapshot(r.known, r.file))
    ensures FileHolds(known, file, dryRun, r)
  {
  }

  lemma {:induction false} PhasePromises(known: set<ItemId>, file: StateFile, phase: Phase, n: nat, dryRun: bool)
    requires n <= |phase.batches|
    ensures var r, t := PhaseOf(known, file, phase, n, dryRun), TallyOf(known, phase.batches[..n]);
            PhaseSafe(known, file, t, dryRun, r) && (!r.stopped ==> PhaseDone(known, file, t, dryRun, r))
  {
    if n > 0 {
      var b := n - 1;
      var r0, t := PhaseOf(known, file, phase, b, dryRun), TallyOf(known, phase.batches[..b]);
      var r := PhaseOf(known, file, phase, n, dryRun);
      PhasePromises(known, file, phase, b, dryRun);
      NextTally(known, phase.batches, b);
      if r0.stopped {
        MorePhase(known, file, t, Added(t, known, phase.batches[b]), dryRun, r0);
      } else {
        BatchPromises(r0, phase.batches[b], b, dryRun, phase.fails, phase.writes);
        StepSafe(known, file, t, phase.batches[b], dryRun, r0, r);
        if !r.stopped {
          StepDone(known, file, t, phase.batches[b], dryRun, r0, r);
        }
      }
    }
  }

  /** Wherever a loop stops it is safe, and past its last batch it has done everything. */
  lemma WholePhasePromises(known: set<ItemId>, file: StateFile, phase: Phase, dryRun: bool)
    ensures var r, t := WholePhase(known, file, phase, dryRun), TallyOf(known, phase.batches);
            PhaseSafe(known, file, t, dryRun, r) && (!r.stopped ==> PhaseDone(known, file, t, dryRun, r))
  {
    PhasePromises(known, file, phase, |phase.batches|, dryRun);
    assert phase.batches[..|phase.batches|] == phase.batches;
  }

  lemma NextTally(known: set<ItemId>, batches: seq<seq<Item>>, b: nat)
    requires b < |batches|
    ensures TallyOf(known, batches[..b + 1]) == Added(TallyOf(known, batches[..b]), known, batches[b])
  {
    OneMoreBatch(known, batches[..b], batches[b]);
    assert batches[..b + 1] == batches[..b] + [batches[b]];
  }

  lemma MorePhase(known: set<ItemId>, file: StateFile, t: Tally, u: Tally, dryRun: bool, r: Progress)
    requires PhaseSafe(known, file, t, dryRun, r)
    requires t.ids <= u.ids && t.exempt <= u.exempt && t.items <= u.items
    ensures PhaseSafe(known, file, u, dryRun, r)
  {
  }

  // ----- where a loop stops, from what it meets

  /** What is pending when batch `b` comes up, if the loop gets there. */
  function PendingAt(known: set<ItemId>, phase: Phase, b: nat): seq<Item>
    requires b < |phase.batches|
  {
    Pending(phase.batches[b], known + AllIds(phase.batches[..b]))
  }

  function AttemptsBefore(known: set<ItemId>, phase: Phase, b: nat): nat
    requires b <= |phase.batches|
  {
    if b == 0 then 0 else AttemptsBefore(known, phase, b - 1) + |Classifiable(PendingAt(known, phase, b - 1))|
  }

  /** Some attempt among the next `count` ones fails. */
  ghost predicate FailsWithin(fails: nat -> bool, before: nat, count: nat) {
    exists n: nat :: before < n <= before + count && fails(n)
  }

  ghost predicate Throws(known: set<ItemId>, phase: Phase, b: nat)
    requires b < |phase.batches|
  {
    FailsWithin(phase.fails, AttemptsBefore(known, phase, b), |Classifiable(PendingAt(known, phase, b))|)
  }

  /** A checkpoint is written after batch `b`, if the loop gets there. */
  ghost predicate Checkpoints(known: set<ItemId>, phase: Phase, b: nat, dryRun: bool)
    requires b < |phase.batches|
  {
    !dryRun && PendingAt(known, phase, b) != [] && !Throws(known, phase, b)
  }

  ghost predicate Tears(known: set<ItemId>, phase: Phase, b: nat, dryRun: bool)
    requires b < |phase.batches|
  {
    Checkpoints(known, phase, b, dryRun) && phase.writes(b) == Torn
  }

  /** The loop gets past batch `b`, if it gets there. */
  ghost predicate Passes(known: set<ItemId>, phase: Phase, b: nat, dryRun: bool)
    requires b < |phase.batches|
  {
    !Throws(known, phase, b) && (Checkpoints(known, phase, b, dryRun) ==> phase.writes(b) == Whole)
  }

  ghost function Passing(known: set<ItemId>, phase: Phase, dryRun: bool): nat -> bool {
    (b: nat) => b < |phase.batches| && Passes(known, phase, b, dryRun)
  }

  /** How many of the first `n` batches the loop gets past. */
  ghost function Passed(known: set<ItemId>, phase: Phase, n: nat, dryRun: bool): (p: nat)
    ensures p <= n
  {
    Leading(n, Passing(known, phase, dryRun))
  }

  lemma {:induction false} LabelStopsIff(pending: seq<Item>, k: nat, known: set<ItemId>, classified: seq<ItemId>,
                                         fails: nat -> bool)
    requires k <= |pending|
    ensures Label(pending, k, known, classified, fails).stopped
            <==> FailsWithin(fails, |classified|, |Classifiable(pending[..k])|)
  {
    if k == 0 {
      assert pending[..0] == [];
    } else {
      var before, count := |classified|, |Classifiable(pending[..k - 1])|;
      LabelStopsIff(pending, k - 1, known, classified, fails);
      LabelledFacts(pending, k - 1, known, classified, fails);
      ClassifiableNext(pending, k - 1);
      if pending[k - 1].exempt {
        assert |Classifiable(pending[..k])| == count;
      } else {
        OneMoreAttempt(fails, before, count);
      }
    }
  }

  lemma OneMoreAttempt(fails: nat -> bool, before: nat, count: nat)
    ensures FailsWithin(fails, before, count + 1) <==> FailsWithin(fails, before, count) || fails(before + count + 1)
  {
    if FailsWithin(fails, before, count) {
      var n: nat :| before < n <= before + count && fails(n);
      assert before < n <= before + (count + 1) && fails(n);
    }
    if fails(before + count + 1) {
      assert before < before + count + 1 <= before + (count + 1);
    }
  }

  /** Checkpoints hold the ids of the passed batches beside what was known; without anything new there is none. */
  ghost predicate HoldsPassed(known: set<ItemId>, file: StateFile, ids: set<ItemId>, dryRun: bool, after: StateFile) {
    if dryRun || ids <= known then after == file else IsSnapshot(known + ids, after)
  }

  /** After `n` batches the loop has stopped exactly if it could not pass one of them. */
  ghost predicate StopAt(known: set<ItemId>, phase: Phase, n: nat, dryRun: bool, r: Progress)
    requires n <= |phase.batches|
  {
    var p := Passed(known, phase, n, dryRun);
    && (r.stopped <==> p < n)
    && (!r.stopped ==>
          r.known == known + AllIds(phase.batches[..n]) && |r.classified| == AttemptsBefore(known, phase, n))
    && (r.torn <==> p < n && Tears(known, phase, p, dryRun))
  }

  /** The file tells which batches it has passed. */
  ghost predicate FileAt(known: set<ItemId>, file: StateFile, phase: Phase, n: nat, dryRun: bool, r: Progress)
    requires n <= |phase.batches|
  {
    if r.torn then r.file == Unreadable
    else HoldsPassed(known, file, AllIds(phase.batches[..Passed(known, phase, n, dryRun)]), dryRun, r.file)
  }

  ghost predicate LoopAt(known: set<ItemId>, file: StateFile, phase: Phase, n: nat, dryRun: bool, r: Progress) {
    n <= |phase.batches| && StopAt(known, phase, n, dryRun, r) && FileAt(known, file, phase, n, dryRun, r)
  }

  /** What holds at the start of a loop, and is kept by every batch, holds after any number of batches. */
  lemma {:induction false} PhaseInduction(known: set<ItemId>, file: StateFile, phase: Phase, n: nat, dryRun: bool,
                                          holds: (nat, Progress) -> bool)
    requires n <= |phase.batches| && holds(0, Progress(known, file, [], 0, 0, 0, false, false))
    requires forall b: nat, r | b < |phase.batches| && holds(b, r) :: holds(b + 1, NextBatch(r, phase, b, dryRun))
    ensures holds(n, PhaseOf(known, file, phase, n, dryRun))
  {
    if n > 0 {
      PhaseInduction(known, file, phase, n - 1, dryRun, holds);
    }
  }

  lemma LoopStops(known: set<ItemId>, file: StateFile, phase: Phase, n: nat, dryRun: bool)
    requires n <= |phase.batches|
    ensures LoopAt(known, file, phase, n, dryRun, PhaseOf(known, file, phase, n, dryRun))
  {
    var holds := (b: nat, r: Progress) => LoopAt(known, file, phase, b, dryRun, r);
    LoopStarts(known, file, phase, dryRun);
    forall b: nat, r | b < |phase.batches| && holds(b, r) ensures holds(b + 1, NextBatch(r, phase, b, dryRun)) {
      LoopStep(known, file, phase, b, dryRun, r);
    }
    PhaseInduction(known, file, phase, n, dryRun, holds);
  }

  lemma LoopStarts(known: set<ItemId>, file: StateFile, phase: Phase, dryRun: bool)
    ensures LoopAt(known, file, phase, 0, dryRun, Progress(known, file, [], 0, 0, 0, false, false))
  {
    assert phase.batches[..0] == [];
  }

  lemma LoopStep(known: set<ItemId>, file: StateFile, phase: Phase, b: nat, dryRun: bool, r: Progress)
    requires b < |phase.batches| && LoopAt(known, file, phase, b, dryRun, r)
    ensures LoopAt(known, file, phase, b + 1, dryRun, NextBatch(r, phase, b, dryRun))
  {
    if r.stopped {
      StaysStopped(r, phase, b, dryRun);
    } else {
      BatchEnds(known, phase, b, dryRun, r);
      StopGoesOn(known, phase, b, dryRun, r, NextBatch(r, phase, b, dryRun));
      FileGoesOn(known, file, phase, b, dryRun, r, NextBatch(r, phase, b, dryRun));
    }
  }

  /** What labelling batch `b` comes to when the loop has got past the batches before it. */
  lemma BatchStops(known: set<ItemId>, phase: Phase, b: nat, r0: Progress)
    requires b < |phase.batches| && r0.known == known + AllIds(phase.batches[..b])
    requires |r0.classified| == AttemptsBefore(known, phase, b)
    ensures var r := LabelledBatch(r0, phase.batches[b], phase.fails);
            && (r.stopped <==> Throws(known, phase, b)) && r.file == r0.file && !r.torn
            && (!r.stopped ==>
                  r.known == r0.known + Ids(phase.batches[b]) && |r.classified| == AttemptsBefore(known, phase, b + 1))
  {
    var batch, pending := phase.batches[b], PendingAt(known, phase, b);
    assert pending[..|pending|] == pending;
    LabelStopsIff(pending, |pending|, r0.known, r0.classified, phase.fails);
    LabelledFacts(pending, |pending|, r0.known, r0.classified, phase.fails);
    PendingIds(batch, r0.known);
  }

  /** How batch `b` ends when the loop has got past the batches before it. */
  ghost predicate EndsAs(known: set<ItemId>, phase: Phase, b: nat, dryRun: bool, at: StateFile, r: Progress)
    requires b < |phase.batches|
  {
    var ids := known + AllIds(phase.batches[..b]) + Ids(phase.batches[b]);
    && (r.stopped <==> !Passes(known, phase, b, dryRun))
    && (r.torn <==> Tears(known, phase, b, dryRun))
    && (!r.stopped ==> r.known == ids && |r.classified| == AttemptsBefore(known, phase, b + 1))
    && r.file == if Tears(known, phase, b, dryRun) then Unreadable
                 else if Checkpoints(known, phase, b, dryRun) && Passes(known, phase, b, dryRun) then SnapshotOf(ids)
                 else at
  }

  lemma BatchEnds(known: set<ItemId>, phase: Phase, b: nat, dryRun: bool, r0: Progress)
    requires b < |phase.batches| && !r0.stopped && r0.known == known + AllIds(phase.batches[..b])
    requires |r0.classified| == AttemptsBefore(known, phase, b)
    ensures EndsAs(known, phase, b, dryRun, r0.file, NextBatch(r0, phase, b, dryRun))
  {
    BatchStops(known, phase, b, r0);
  }

  lemma PassedNext(known: set<ItemId>, phase: Phase, b: nat, dryRun: bool)
    requires b < |phase.batches|
    ensures Passed(known, phase, b + 1, dryRun) ==
            if Passed(known, phase, b, dryRun) == b && Passes(known, phase, b, dryRun) then b + 1
            else Passed(known, phase, b, dryRun)
  {
  }

  lemma StopGoesOn(known: set<ItemId>, phase: Phase, b: nat, dryRun: bool, r0: Progress, r: Progress)
    requires b < |phase.batches| && !r0.stopped && StopAt(known, phase, b, dryRun, r0)
    requires EndsAs(known, phase, b, dryRun, r0.file, r)
    ensures StopAt(known, phase, b + 1, dryRun, r)
  {
    PassedNext(known, phase, b, dryRun);
    AllIdsNext(phase.batches, b);
    assert known + AllIds(phase.batches[..b]) + Ids(phase.batches[b]) == known + AllIds(phase.batches[..b + 1]);
  }

  lemma FileGoesOn(known: set<ItemId>, file: StateFile, phase: Phase, b: nat, dryRun: bool, r0: Progress, r: Progress)
    requires b < |phase.batches| && !r0.stopped
    requires StopAt(known, phase, b, dryRun, r0) && FileAt(known, file, phase, b, dryRun, r0)
    requires EndsAs(known, phase, b, dryRun, r0.file, r)
    ensures FileAt(known, file, phase, b + 1, dryRun, r)
  {
    PassedNext(known, phase, b, dryRun);
    AllIdsNext(phase.batches, b);
    CheckpointHolds(known, file, AllIds(phase.batches[..b]), phase.batches[b], dryRun, r0.file);
  }

  lemma AllIdsNext(batches: seq<seq<Item>>, b: nat)
    requires b < |batches|
    ensures AllIds(batches[..b + 1]) == AllIds(batches[..b]) + Ids(batches[b])
  {
    assert forall x :: x in batches[..b + 1] <==> x in batches[..b] || x == batches[b];
  }

  /** After a batch with nothing pending the file is right as it is, and after any other a snapshot is. */
  lemma CheckpointHolds(known: set<ItemId>, file: StateFile, ids: set<ItemId>, batch: seq<Item>, dryRun: bool,
                        at: StateFile)
    requires HoldsPassed(known, file, ids, dryRun, at)
    ensures dryRun || Pending(batch, known + ids) == [] ==> HoldsPassed(known, file, ids + Ids(batch), dryRun, at)
    ensures !dryRun && Pending(batch, known + ids) != []
            ==> HoldsPassed(known, file, ids + Ids(batch), dryRun, SnapshotOf(known + ids + Ids(batch)))
  {
    PendingIds(batch, known + ids);
    if Pending(batch, known + ids) == [] {
      assert ids <= known ==> ids + Ids(batch) <= known;
      assert known + (ids + Ids(batch)) == known + ids;
    } else {
      assert Pending(batch, known + ids)[0].id in Ids(Pending(batch, known + ids));
      assert known + (ids + Ids(batch)) == known + ids + Ids(batch);
    }
  }
}
