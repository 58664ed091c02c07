/** Whole runs of the labelling script over its state file, and what survives crashes, failed reads and restarts. */
module LabelRuns {
  import opened Common
  import opened LabelBatches
  import opened LabelResume
  import opened Traces

  // ----- a whole run

  /** What a run meets: whether its read of the file succeeds, its issues, its pull requests, and whether it is a dry
      run. A run whose read fails starts as from an empty file. */
  datatype Plan = Plan(canRead: bool, issues: Phase, pulls: Phase, dryRun: bool)

  /** The file before and after a run, the items it classified, whether it tore the file, and whether it finished. */
  datatype Run = Run(before: StateFile, after: StateFile, classified: seq<ItemId>, torn: bool, finished: bool)

  /** What the run takes for done. */
  function Start(file: StateFile, plan: Plan): set<ItemId> {
    if plan.canRead then Load(file) else {}
  }

  /** What the issue loop of a run leaves. */
  ghost function IssueLoop(file: StateFile, plan: Plan): Progress {
    WholePhase(Start(file, plan), file, plan.issues, plan.dryRun)
  }

  ghost predicate IssuesDone(file: StateFile, plan: Plan) {
    !IssueLoop(file, plan).stopped && plan.issues.completed
  }

  /** The pull request loop goes on from there. */
  ghost function PullLoop(file: StateFile, plan: Plan): Progress {
    var first := IssueLoop(file, plan);
    WholePhase(first.known, first.file, plan.pulls, plan.dryRun)
  }

  /** A run of the script on a state file. */
  ghost function RunOf(file: StateFile, plan: Plan): Run {
    var first, second := IssueLoop(file, plan), PullLoop(file, plan);
    if !IssuesDone(file, plan) then Run(file, first.file, first.classified, first.torn, false)
    else Run(file, second.file, first.classified + second.classified, second.torn,
             !second.stopped && plan.pulls.completed)
  }

  function Listed(plan: Plan): set<ItemId> {
    AllIds(plan.issues.batches) + AllIds(plan.pulls.batches)
  }

  function Exempt(plan: Plan): set<ItemId> {
    AllExemptIds(plan.issues.batches) + AllExemptIds(plan.pulls.batches)
  }

  /** The plan is what the pages yield; pull requests are fetched only after the issues are done. */
  ghost predicate PlannedFrom(file: StateFile, issuePages: seq<Page<Item>>, pullPages: seq<Page<Item>>,
                              limit: Option<nat>, plan: Plan)
  {
    FetchedAs(issuePages, limit, plan.issues) && (IssuesDone(file, plan) ==> FetchedAs(pullPages, limit, plan.pulls))
  }

  /** `main`; `reading` says whether `loadState` could read the file. */
  method LabelOpenItems(file: StateFile, reading: bool, issues: World, pulls: World, limit: Option<nat>, dryRun: bool)
    returns (run: Run, ghost plan: Plan)
    ensures run == RunOf(file, plan) && plan.canRead == reading && plan.dryRun == dryRun
    ensures PlannedFrom(file, issues.pages, pulls.pages, limit, plan)
    ensures run.finished ==> Complete(issues.pages, limit) && Complete(pulls.pages, limit)
    ensures run.finished && !dryRun ==>
              var wanted := Ids(Wanted(issues.pages, limit)) + Ids(Wanted(pulls.pages, limit));
              Load(run.after) == if wanted <= Start(file, plan) then Load(file) else Start(file, plan) + wanted
  {
    var known := if reading then Load(file) else {};
    var first, issuesCompleted, issuePhase := RunPhase(known, file, issues, limit, dryRun);
    if first.stopped || !issuesCompleted {
      plan := Plan(reading, issuePhase, issuePhase, dryRun);
      return Run(file, first.file, first.classified, first.torn, false), plan;
    }
    var second, pullsCompleted, pullPhase := RunPhase(first.known, first.file, pulls, limit, dryRun);
    plan := Plan(reading, issuePhase, pullPhase, dryRun);
    run := Run(file, second.file, first.classified + second.classified, second.torn, !second.stopped && pullsCompleted);
    if run.finished {
      FinishedWanted(file, plan, issues.pages, pulls.pages, limit);
    }
  }

  lemma FinishedWanted(file: StateFile, plan: Plan, issuePages: seq<Page<Item>>, pullPages: seq<Page<Item>>,
                       limit: Option<nat>)
    requires PlannedFrom(file, issuePages, pullPages, limit, plan) && RunOf(file, plan).finished
    ensures Complete(issuePages, limit) && Complete(pullPages, limit)
    ensures !plan.dryRun ==>
              var wanted := Ids(Wanted(issuePages, limit)) + Ids(Wanted(pullPages, limit));
              Load(RunOf(file, plan).after) ==
                if wanted <= Start(file, plan) then Load(file) else Start(file, plan) + wanted
  {
    FetchedIds(issuePages, limit, plan.issues);
    FetchedIds(pullPages, limit, plan.pulls);
    if !plan.dryRun {
      FinishedSaves(file, plan);
    }
  }

  /** The listing can be fetched as far as the run wants it. */
  ghost predicate Complete(pages: seq<Page<Item>>, limit: Option<nat>) {
    Ends(pages) || Reached(limit, |Available(pages)|)
  }

  function Wanted(pages: seq<Page<Item>>, limit: Option<nat>): seq<Item> {
    Take(Available(pages), limit)
  }

  lemma FetchedIds(pages: seq<Page<Item>>, limit: Option<nat>, phase: Phase)
    requires FetchedAs(pages, limit, phase) && phase.completed
    ensures Complete(pages, limit) && AllIds(phase.batches) == Ids(Wanted(pages, limit))
  {
    var batches :| Delivered(pages, limit, batches, true) && phase.batches == ItemsOf(batches);
    forall item ensures item in Wanted(pages, limit)
        <==> exists i :: 0 <= i < |phase.batches| && item in phase.batches[i] {
      InFlatten(batches, item);
    }
    forall id ensures id in AllIds(phase.batches) <==> id in Ids(Wanted(pages, limit)) {
      if id in AllIds(phase.batches) {
        var b, item :| b in phase.batches && item in b && item.id == id;
        assert item in Wanted(pages, limit);
      }
      if id in Ids(Wanted(pages, limit)) {
        var item :| item in Wanted(pages, limit) && item.id == id;
        var i :| 0 <= i < |phase.batches| && item in phase.batches[i];
        assert phase.batches[i] in phase.batches;
      }
    }
  }

  /** No item that the run takes for done is classified, only listed items are; whatever is newly saved was classified
      or exempt; a torn write ends the run. */
  lemma RunPromises(file: StateFile, plan: Plan)
    ensures var run := RunOf(file, plan);
            && (forall id | id in run.classified :: id !in Start(file, plan) && id in Listed(plan))
            && (forall id | id in Load(run.after) && id !in Load(file) :: id in run.classified || id in Exempt(plan))
            && (run.torn ==> run.after == Unreadable && !plan.dryRun && !run.finished)
            && (plan.dryRun ==> run.after == file)
  {
    var first, second := IssueLoop(file, plan), PullLoop(file, plan);
    WholePhasePromises(Start(file, plan), file, plan.issues, plan.dryRun);
    WholePhasePromises(first.known, first.file, plan.pulls, plan.dryRun);
  }

  /** A finished run classifies a listed item that needs a label exactly when the item was not saved or the saved set
      could not be read. */
  lemma ClassifiedIff(file: StateFile, plan: Plan, id: ItemId)
    requires RunOf(file, plan).finished && id in Listed(plan) && id !in Exempt(plan)
    ensures id in RunOf(file, plan).classified <==> !(plan.canRead && id in Load(file))
  {
    WholePhasePromises(Start(file, plan), file, plan.issues, plan.dryRun);
    WholePhasePromises(IssueLoop(file, plan).known, IssueLoop(file, plan).file, plan.pulls, plan.dryRun);
  }

  // ----- what a run saves, from what it meets

  ghost function IssuesPassed(file: StateFile, plan: Plan): (p: nat)
    ensures p <= |plan.issues.batches|
  {
    Passed(Start(file, plan), plan.issues, |plan.issues.batches|, plan.dryRun)
  }

  /** The run gets to its pull requests. */
  ghost predicate ReachesPulls(file: StateFile, plan: Plan) {
    IssuesPassed(file, plan) == |plan.issues.batches| && plan.issues.completed
  }

  function PullStart(file: StateFile, plan: Plan): set<ItemId> {
    Start(file, plan) + AllIds(plan.issues.batches)
  }

  ghost function PullsPassed(file: StateFile, plan: Plan): (p: nat)
    ensures p <= |plan.pulls.batches|
  {
    Passed(PullStart(file, plan), plan.pulls, |plan.pulls.batches|, plan.dryRun)
  }

  /** The first batch that a loop does not get past meets a torn write. */
  ghost predicate LoopTears(known: set<ItemId>, phase: Phase, p: nat, dryRun: bool) {
    p < |phase.batches| && Tears(known, phase, p, dryRun)
  }

  ghost predicate MeetsTear(file: StateFile, plan: Plan) {
    || LoopTears(Start(file, plan), plan.issues, IssuesPassed(file, plan), plan.dryRun)
    || (ReachesPulls(file, plan) && LoopTears(PullStart(file, plan), plan.pulls, PullsPassed(file, plan), plan.dryRun))
  }

  /** The ids of the batches that the run gets past. */
  ghost function PassedIds(file: StateFile, plan: Plan): set<ItemId> {
    AllIds(plan.issues.batches[..IssuesPassed(file, plan)])
    + if ReachesPulls(file, plan) then AllIds(plan.pulls.batches[..PullsPassed(file, plan)]) else {}
  }

  lemma WholeLoopStops(known: set<ItemId>, file: StateFile, phase: Phase, dryRun: bool)
    ensures LoopAt(known, file, phase, |phase.batches|, dryRun, WholePhase(known, file, phase, dryRun))
    ensures phase.batches[..|phase.batches|] == phase.batches
  {
    LoopStops(known, file, phase, |phase.batches|, dryRun);
  }

  /** A run tears the file exactly when one of its loops reaches a checkpoint whose write is torn. */
  lemma TornIff(file: StateFile, plan: Plan)
    ensures IssuesDone(file, plan) <==> ReachesPulls(file, plan)
    ensures RunOf(file, plan).torn <==> MeetsTear(file, plan)
  {
    WholeLoopStops(Start(file, plan), file, plan.issues, plan.dryRun);
    WholeLoopStops(PullStart(file, plan), IssueLoop(file, plan).file, plan.pulls, plan.dryRun);
  }

  /** What is saved after a run: nothing if it tore the file; as before if it got past nothing new; and otherwise what
      it took for done with the batches it got past. */
  lemma SavedAfter(file: StateFile, plan: Plan)
    ensures Load(RunOf(file, plan).after) ==
            if MeetsTear(file, plan) then {}
            else if plan.dryRun || PassedIds(file, plan) <= Start(file, plan) then Load(file)
            else Start(file, plan) + PassedIds(file, plan)
  {
    TornIff(file, plan);
    RunPromises(file, plan);
    var first := IssueLoop(file, plan);
    WholeLoopStops(Start(file, plan), file, plan.issues, plan.dryRun);
    if ReachesPulls(file, plan) {
      WholeLoopStops(PullStart(file, plan), first.file, plan.pulls, plan.dryRun);
      if !MeetsTear(file, plan) {
        TwoLoops(Start(file, plan), file, AllIds(plan.issues.batches), first.file,
                 AllIds(plan.pulls.batches[..PullsPassed(file, plan)]), RunOf(file, plan).after, plan.dryRun);
      }
    } else {
      assert AllIds(plan.issues.batches[..IssuesPassed(file, plan)]) + {} == PassedIds(file, plan);
    }
  }

  lemma TwoLoops(known: set<ItemId>, file: StateFile, ids: set<ItemId>, between: StateFile, more: set<ItemId>,
                 after: StateFile, dryRun: bool)
    requires HoldsPassed(known, file, ids, dryRun, between) && HoldsPassed(known + ids, between, more, dryRun, after)
    ensures Load(after) == if dryRun || ids + more <= known then Load(file) else known + (ids + more)
  {
    assert known + ids + more == known + (ids + more);
    if more <= known + ids {
      assert known + ids == known + (ids + more);
    }
    if ids <= known {
      assert known + ids == known;
    }
  }

  lemma FinishedSaves(file: StateFile, plan: Plan)
    requires RunOf(file, plan).finished && !plan.dryRun
    ensures Load(RunOf(file, plan).after) ==
            if Listed(plan) <= Start(file, plan) then Load(file) else Start(file, plan) + Listed(plan)
  {
    TornIff(file, plan);
    SavedAfter(file, plan);
    RunPromises(file, plan);
    WholeLoopStops(Start(file, plan), file, plan.issues, plan.dryRun);
    WholeLoopStops(PullStart(file, plan), IssueLoop(file, plan).file, plan.pulls, plan.dryRun);
  }

  // ----- across runs

  /** The run loses a saved item: its write is torn, or it could not read the saved set and got past other items
      only. */
  ghost predicate Drops(file: StateFile, plan: Plan, id: ItemId) {
    || MeetsTear(file, plan)
    || (!plan.canRead && !plan.dryRun && PassedIds(file, plan) != {} && id !in PassedIds(file, plan))
  }

  /** A saved item stays saved exactly when the run does not drop it. */
  lemma KeptIff(file: StateFile, plan: Plan, id: ItemId)
    requires id in Load(file)
    ensures id in Load(RunOf(file, plan).after) <==> !Drops(file, plan, id)
  {
    SavedAfter(file, plan);
  }

  /** A run keeps the saved set exactly when it drops none of its items. */
  lemma SavedKeptIff(file: StateFile, plan: Plan)
    ensures Load(file) <= Load(RunOf(file, plan).after) <==> forall id | id in Load(file) :: !Drops(file, plan, id)
  {
    forall id | id in Load(file) ensures id in Load(RunOf(file, plan).after) <==> !Drops(file, plan, id) {
      KeptIff(file, plan, id);
    }
  }

  /** The next finished run classifies a saved item that it lists, and that needs a label, exactly when the run before
      it dropped the item or it cannot read the file itself. */
  lemma ClassifiedAgainIff(file: StateFile, plan: Plan, next: Plan, id: ItemId)
    requires id in Load(file)
    requires RunOf(RunOf(file, plan).after, next).finished && id in Listed(next) && id !in Exempt(next)
    ensures id in RunOf(RunOf(file, plan).after, next).classified <==> Drops(file, plan, id) || !next.canRead
  {
    KeptIff(file, plan, id);
    ClassifiedIff(RunOf(file, plan).after, next, id);
  }

  /** The file after several runs, each starting from the file that the one before it left. */
  ghost function FileAfter(file: StateFile, plans: seq<Plan>): StateFile {
    After((f, plan) => RunOf(f, plan).after, file, plans)
  }

  ghost function RunAt(file: StateFile, plans: seq<Plan>, i: nat): Run
    requires i < |plans|
  {
    RunOf(FileAfter(file, plans[..i]), plans[i])
  }

  ghost predicate DropsAt(file: StateFile, plans: seq<Plan>, i: nat, id: ItemId)
    requires i < |plans|
  {
    Drops(FileAfter(file, plans[..i]), plans[i], id)
  }

  ghost predicate NoneDrops(file: StateFile, plans: seq<Plan>, i: nat, j: nat, id: ItemId)
    requires j <= |plans|
  {
    forall k | i <= k < j :: !DropsAt(file, plans, k, id)
  }

  /** A saved item stays saved from run to run as long as no run drops it. */
  lemma SavedStays(file: StateFile, plans: seq<Plan>, i: nat, j: nat, id: ItemId)
    requires i <= j <= |plans| && id in Load(FileAfter(file, plans[..i]))
    requires NoneDrops(file, plans, i, j, id)
    ensures id in Load(FileAfter(file, plans[..j]))
  {
    var step := (f, plan) => RunOf(f, plan).after;
    var fact, quiet := (f: StateFile) => id in Load(f), (f: StateFile, plan: Plan) => !Drops(f, plan, id);
    forall f, plan | fact(f) && quiet(f, plan) ensures fact(step(f, plan)) {
      KeptIff(f, plan, id);
    }
    forall k | i <= k < j ensures quiet(After(step, file, plans[..k]), plans[k]) {
      assert !DropsAt(file, plans, k, id);
    }
    Stays(step, file, plans, i, j, fact, quiet);
  }

  /** As long as no run drops one of its items, the saved set only grows from run to run. */
  lemma SavedSetGrows(file: StateFile, plans: seq<Plan>, i: nat, j: nat)
    requires i <= j <= |plans|
    requires forall id | id in Load(FileAfter(file, plans[..i])) :: NoneDrops(file, plans, i, j, id)
    ensures Load(FileAfter(file, plans[..i])) <= Load(FileAfter(file, plans[..j]))
  {
    forall id | id in Load(FileAfter(file, plans[..i])) ensures id in Load(FileAfter(file, plans[..j])) {
      SavedStays(file, plans, i, j, id);
    }
  }

  /** A saved item is classified by a later run only after a run in between dropped it, or if that run cannot read the
      file. */
  lemma NeverClassifiedAgain(file: StateFile, plans: seq<Plan>, i: nat, j: nat, id: ItemId)
    requires i <= j < |plans| && id in Load(FileAfter(file, plans[..i]))
    ensures id in RunAt(file, plans, j).classified
            ==> !plans[j].canRead || exists k :: i <= k < j && DropsAt(file, plans, k, id)
  {
    if NoneDrops(file, plans, i, j, id) {
      SavedStays(file, plans, i, j, id);
    }
    RunPromises(FileAfter(file, plans[..j]), plans[j]);
  }

  // ----- runs that forget

  /** One issue that needs a label, and no pull request. */
  function OneIssue(n: int, canRead: bool, write: WriteOutcome): Plan {
    Plan(canRead, Phase([[Item(Issue(n), false)]], true, _ => false, _ => write),
         Phase([], true, _ => false, _ => Whole), false)
  }

  lemma OneIssueRun(file: StateFile, n: int, canRead: bool, write: WriteOutcome)
    requires canRead ==> Issue(n) !in Load(file)
    ensures var plan := OneIssue(n, canRead, write); var run := RunOf(file, plan);
            && (run.torn <==> write == Torn) && (run.finished <==> write == Whole)
            && Listed(plan) == {Issue(n)} && Exempt(plan) == {}
            && (write == Whole ==> Load(run.after) == Start(file, plan) + {Issue(n)} && Issue(n) in run.classified)
            && (write == Torn ==> Load(run.after) == {})
  {
    var plan, item := OneIssue(n, canRead, write), Item(Issue(n), false);
    var phase, known := plan.issues, Start(file, plan);
    var start := PhaseOf(known, file, phase, 0, false);
    var pending := Pending([item], start.known);
    assert [item][..0] == [] && pending == [item];
    assert !Label(pending, 0, start.known, start.classified, phase.fails).stopped;
    assert !Label(pending, 1, start.known, start.classified, phase.fails).stopped;
    assert PhaseOf(known, file, phase, 1, false) == BatchOf(start, [item], 0, false, phase.fails, phase.writes);
    OneIssueIds(n, canRead, write);
    RunPromises(file, plan);
    if write == Whole {
      FinishedSaves(file, plan);
      ClassifiedIff(file, plan, Issue(n));
    }
  }

  lemma OneIssueIds(n: int, canRead: bool, write: WriteOutcome)
    ensures Listed(OneIssue(n, canRead, write)) == {Issue(n)} && Exempt(OneIssue(n, canRead, write)) == {}
  {
    var plan, batch := OneIssue(n, canRead, write), [Item(Issue(n), false)];
    assert plan.issues.batches == [batch] && batch[0] == Item(Issue(n), false);
    assert batch in plan.issues.batches && batch[0] in batch;
  }

  /** A first run saves item 7, a run over item 8 tears the file, and the next run classifies item 7 again. */
  lemma TornWriteForgets()
    ensures var first := RunOf(Absent, OneIssue(7, true, Whole));
            var second := RunOf(first.after, OneIssue(8, true, Torn));
            var third := RunOf(second.after, OneIssue(7, true, Whole));
            Issue(7) in Load(first.after) && second.torn && Issue(7) in third.classified
  {
    var first := RunOf(Absent, OneIssue(7, true, Whole));
    OneIssueRun(Absent, 7, true, Whole);
    OneIssueRun(first.after, 8, true, Torn);
    OneIssueRun(RunOf(first.after, OneIssue(8, true, Torn)).after, 7, true, Whole);
  }

  /** A first run saves item 7. A run that cannot read the file classifies item 7 again; one over item 8 leaves only
      item 8 saved. */
  lemma FailedReadForgets()
    ensures var first := RunOf(Absent, OneIssue(7, true, Whole));
            && Issue(7) in Load(first.after)
            && Issue(7) in RunOf(first.after, OneIssue(7, false, Whole)).classified
            && Load(RunOf(first.after, OneIssue(8, false, Whole)).after) == {Issue(8)}
  {
    var first := RunOf(Absent, OneIssue(7, true, Whole));
    OneIssueRun(Absent, 7, true, Whole);
    OneIssueRun(first.after, 7, false, Whole);
    OneIssueRun(first.after, 8, false, Whole);
  }
}
