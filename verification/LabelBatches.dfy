/** Paging through open items in work batches. */
module LabelBatches {
  import opened Common

  const WORK_BATCH_SIZE := 500

  /** One page as the server answers it. */
  datatype Page<T> = Page(items: seq<T>, hasNext: bool)

  datatype Batch<T> = Batch(index: nat, items: seq<T>, fetchedCount: nat)

  /** The items on the pages that can be fetched; a request after the last answered page fails. */
  function Available<T>(pages: seq<Page<T>>): seq<T> {
    if pages == [] then []
    else pages[0].items + if pages[0].hasNext then Available(pages[1..]) else []
  }

  /** The listing ends within the answered pages. */
  predicate Ends<T>(pages: seq<Page<T>>) {
    pages != [] && (pages[0].hasNext ==> Ends(pages[1..]))
  }

  /** `None` stands for an unlimited run. */
  predicate Reached(limit: Option<nat>, n: nat) {
    limit.Some? && limit.value <= n
  }

  function Take<T>(items: seq<T>, limit: Option<nat>): seq<T> {
    if Reached(limit, |items|) then items[..limit.value] else items
  }

  /** Pages that each announce another one give their items in order, up to the first that does not. */
  lemma {:induction false} AvailableLaws<T>(front: seq<Page<T>>, page: Page<T>, back: seq<Page<T>>)
    requires forall i | 0 <= i < |front| :: front[i].hasNext
    ensures Available(front + ([page] + back)) ==
            Available(front) + (page.items + if page.hasNext then Available(back) else [])
    ensures Ends(front + ([page] + back)) <==> !page.hasNext || Ends(back)
  {
    var all := front + ([page] + back);
    if front == [] {
      assert all == [page] + back && all[1..] == back;
    } else {
      AvailableLaws(front[1..], page, back);
      assert all[1..] == front[1..] + ([page] + back);
      Associate(front[0].items, Available(front[1..]), page.items + if page.hasNext then Available(back) else []);
    }
  }

  /** A limited run takes the first `limit` items, or all if there are no more. */
  lemma TakeMeans<T>(items: seq<T>, limit: Option<nat>)
    ensures Take(items, limit) <= items
    ensures |Take(items, limit)| == if limit.Some? then Min(limit.value, |items|) else |items|
  {
  }

  function Flatten<T>(batches: seq<Batch<T>>): seq<T> {
    if batches == [] then [] else Flatten(batches[..|batches| - 1]) + batches[|batches| - 1].items
  }

  function ItemsOf<T>(batches: seq<Batch<T>>): (r: seq<seq<T>>)
    ensures |r| == |batches|
    ensures forall i | 0 <= i < |batches| :: r[i] == batches[i].items
  {
    seq(|batches|, i requires 0 <= i < |batches| => batches[i].items)
  }

  /** The batches hold exactly the fetched items. */
  lemma {:induction false} InFlatten<T>(batches: seq<Batch<T>>, x: T)
    ensures x in Flatten(batches) <==> exists i :: 0 <= i < |batches| && x in batches[i].items
  {
    if batches != [] {
      var n := |batches| - 1;
      InFlatten(batches[..n], x);
      assert forall i | 0 <= i < n :: batches[..n][i] == batches[i];
    }
  }

  ghost predicate Full<T>(b: Batch<T>) {
    |b.items| == WORK_BATCH_SIZE
  }

  /** Batches are numbered from one and carry the number of items fetched so far. */
  ghost predicate Numbered<T>(batches: seq<Batch<T>>) {
    batches != [] ==>
      && Numbered(batches[..|batches| - 1])
      && batches[|batches| - 1].index == |batches|
      && batches[|batches| - 1].fetchedCount == |Flatten(batches)|
  }

  lemma {:induction false} NumberedAt<T>(batches: seq<Batch<T>>, i: nat)
    requires Numbered(batches) && i < |batches|
    ensures batches[i].index == i + 1 && batches[i].fetchedCount == |Flatten(batches[..i + 1])|
  {
    if i + 1 < |batches| {
      var init := batches[..|batches| - 1];
      NumberedAt(init, i);
      assert init[..i + 1] == batches[..i + 1];
    } else {
      assert batches[..i + 1] == batches;
    }
  }

  /** Every batch but the last is full; the last one is not empty. */
  ghost predicate WellSized<T>(batches: seq<Batch<T>>) {
    && (forall i | 0 <= i < |batches| - 1 :: Full(batches[i]))
    && (batches != [] ==> 0 < |batches[|batches| - 1].items| <= WORK_BATCH_SIZE)
  }

  /** So a finished run has one batch for each full five hundred items, and one for what is left over. */
  lemma BatchCount<T>(batches: seq<Batch<T>>)
    requires WellSized(batches)
    ensures |batches| == (|Flatten(batches)| + 499) / 500
  {
    if batches != [] {
      FullItems(batches[..|batches| - 1]);
    }
  }

  lemma {:induction false} FullItems<T>(batches: seq<Batch<T>>)
    requires forall i | 0 <= i < |batches| :: Full(batches[i])
    ensures |Flatten(batches)| == 500 * |batches|
  {
    if batches != [] {
      FullItems(batches[..|batches| - 1]);
    }
  }

  /** The batches yielded so far and the items waiting for the next one. */
  ghost predicate Yielded<T>(batches: seq<Batch<T>>, results: seq<T>, taken: seq<T>) {
    && taken == Flatten(batches) + results
    && |results| < WORK_BATCH_SIZE
    && Numbered(batches)
    && forall i | 0 <= i < |batches| :: Full(batches[i])
  }

  lemma YieldBatch<T>(batches: seq<Batch<T>>, results: seq<T>, b: Batch<T>, taken: seq<T>)
    requires taken == Flatten(batches) + results && Numbered(batches)
    requires b == Batch(|batches| + 1, results, |taken|)
    ensures Numbered(batches + [b]) && Flatten(batches + [b]) == taken
  {
    assert (batches + [b])[..|batches|] == batches;
  }

  /** The loop over the nodes of one page. */
  method TakePage<T>(batches0: seq<Batch<T>>, results0: seq<T>, ghost taken0: seq<T>, nodes: seq<T>, fetched0: nat,
                     limit: Option<nat>)
    returns (batches: seq<Batch<T>>, results: seq<T>, fetched: nat, ghost taken: seq<T>)
    requires Yielded(batches0, results0, taken0) && fetched0 == |taken0|
    requires limit.Some? ==> fetched0 <= limit.value
    ensures fetched0 <= fetched <= fetched0 + |nodes| && taken == taken0 + nodes[..fetched - fetched0]
    ensures Yielded(batches, results, taken)
    ensures limit.Some? ==> fetched <= limit.value
    ensures fetched - fetched0 == |nodes| || Reached(limit, fetched)
  {
    batches, results, fetched, taken := batches0, results0, fetched0, taken0;
    assert taken0 + nodes[..0] == taken0;
    for i := 0 to |nodes|
      invariant fetched == fetched0 + i && taken == taken0 + nodes[..i]
      invariant limit.Some? ==> fetched <= limit.value
      invariant Yielded(batches, results, taken)
    {
      if Reached(limit, fetched) {
        return;
      }
      batches, results := TakeNode(batches, results, nodes[i], fetched, taken);
      ExtendSlice(taken0, nodes, i);
      taken, fetched := taken + [nodes[i]], fetched + 1;
    }
  }

  method TakeNode<T>(batches0: seq<Batch<T>>, results0: seq<T>, node: T, fetched: nat, ghost taken: seq<T>)
    returns (batches: seq<Batch<T>>, results: seq<T>)
    requires Yielded(batches0, results0, taken) && fetched == |taken|
    ensures Yielded(batches, results, taken + [node])
  {
    TakeOne(batches0, results0, taken, node);
    batches, results := batches0, results0 + [node];
    if |results| >= WORK_BATCH_SIZE {
      batches := batches + [Batch(|batches| + 1, results, fetched + 1)];
      results := [];
    }
  }

  lemma ExtendSlice<T>(front: seq<T>, xs: seq<T>, i: nat)
    requires i < |xs|
    ensures front + xs[..i + 1] == front + xs[..i] + [xs[i]]
  {
  }

  /** One more item either waits or completes a batch. */
  lemma TakeOne<T>(batches: seq<Batch<T>>, results: seq<T>, taken: seq<T>, x: T)
    requires Yielded(batches, results, taken)
    ensures var more := results + [x];
            if |more| < WORK_BATCH_SIZE then Yielded(batches, more, taken + [x])
            else Yielded(batches + [Batch(|batches| + 1, more, |taken| + 1)], [], taken + [x])
  {
    var more := results + [x];
    Associate(Flatten(batches), results, [x]);
    if |more| >= WORK_BATCH_SIZE {
      var b := Batch(|batches| + 1, more, |taken| + 1);
      YieldBatch(batches, more, b, taken + [x]);
      assert taken + [x] + [] == taken + [x];
    }
  }

  /** The state between two pages: what was taken, and what the rest of the pages can still give. */
  ghost predicate Between<T>(pages: seq<Page<T>>, k: nat, taken: seq<T>, limit: Option<nat>, open: bool)
    requires k <= |pages|
  {
    if open && !Reached(limit, |taken|) then
      Available(pages) == taken + Available(pages[k..]) && (Ends(pages) <==> Ends(pages[k..]))
    else
      taken == Take(Available(pages), limit) && (Ends(pages) || Reached(limit, |Available(pages)|))
  }

  lemma PageStep<T>(pages: seq<Page<T>>, k: nat, taken: seq<T>, n: nat, limit: Option<nat>)
    requires k < |pages| && !Reached(limit, |taken|) && Between(pages, k, taken, limit, true)
    requires n <= |pages[k].items| && (n == |pages[k].items| || Reached(limit, |taken| + n))
    requires limit.Some? ==> |taken| + n <= limit.value
    ensures Between(pages, k + 1, taken + pages[k].items[..n], limit, pages[k].hasNext)
  {
    var nodes, rest := pages[k].items, if pages[k].hasNext then Available(pages[k + 1..]) else [];
    PageOpened(pages, k);
    assert taken + (nodes + rest) == taken + nodes + rest;
    if Reached(limit, |taken| + n) {
      TakeMiddle(taken, nodes, rest, n);
    } else {
      assert nodes[..n] == nodes;
      assert !pages[k].hasNext ==> taken + nodes + rest == taken + nodes;
    }
  }

  lemma PageOpened<T>(pages: seq<Page<T>>, k: nat)
    requires k < |pages|
    ensures Available(pages[k..]) == pages[k].items + if pages[k].hasNext then Available(pages[k + 1..]) else []
    ensures Ends(pages[k..]) <==> (pages[k].hasNext ==> Ends(pages[k + 1..]))
  {
    assert pages[k..][1..] == pages[k + 1..];
  }

  lemma TakeMiddle<T>(taken: seq<T>, nodes: seq<T>, rest: seq<T>, n: nat)
    requires n <= |nodes|
    ensures (taken + nodes + rest)[..|taken| + n] == taken + nodes[..n]
  {
  }

  /** One page: its nodes are taken until the limit. */
  method TakeNextPage<T>(pages: seq<Page<T>>, k: nat, batches0: seq<Batch<T>>, results0: seq<T>, fetched0: nat,
                         limit: Option<nat>, ghost taken: seq<T>)
    returns (batches: seq<Batch<T>>, results: seq<T>, fetched: nat, ghost next: seq<T>)
    requires k < |pages| && fetched0 == |taken| && !Reached(limit, fetched0)
    requires Yielded(batches0, results0, taken) && Between(pages, k, taken, limit, true)
    ensures Yielded(batches, results, next) && Between(pages, k + 1, next, limit, pages[k].hasNext)
    ensures fetched == |next| && (limit.Some? ==> fetched <= limit.value)
  {
    batches, results, fetched, next := TakePage(batches0, results0, taken, pages[k].items, fetched0, limit);
    PageStep(pages, k, taken, fetched - fetched0, limit);
  }

  /** The last batch: whatever is still waiting when the listing ends. */
  method YieldRest<T>(batches0: seq<Batch<T>>, results: seq<T>, fetched: nat, ghost taken: seq<T>)
    returns (batches: seq<Batch<T>>)
    requires Yielded(batches0, results, taken) && fetched == |taken|
    ensures Numbered(batches) && Flatten(batches) == taken && WellSized(batches)
  {
    batches := batches0;
    if |results| > 0 {
      var batch := Batch(|batches| + 1, results, fetched);
      YieldBatch(batches, results, batch, taken);
      batches := batches + [batch];
    } else {
      assert Flatten(batches) + results == Flatten(batches);
      assert batches != [] ==> Full(batches[|batches| - 1]);
    }
  }

  /** What the caller has received when the generator stops. */
  ghost predicate Delivered<T>(pages: seq<Page<T>>, limit: Option<nat>, batches: seq<Batch<T>>, completed: bool) {
    && (completed <==> Ends(pages) || Reached(limit, |Available(pages)|))
    && Numbered(batches)
    && if completed then
         Flatten(batches) == Take(Available(pages), limit) && WellSized(batches)
       else
         && Flatten(batches) <= Available(pages)
         && (forall i | 0 <= i < |batches| :: Full(batches[i]))
         && |Available(pages)| - |Flatten(batches)| < WORK_BATCH_SIZE
  }

  lemma RequestFails<T>(pages: seq<Page<T>>, limit: Option<nat>, batches: seq<Batch<T>>, results: seq<T>, taken: seq<T>)
    requires Yielded(batches, results, taken) && !Reached(limit, |taken|) && Between(pages, |pages|, taken, limit, true)
    ensures Delivered(pages, limit, batches, false)
  {
    assert pages[|pages|..] == [] && taken + [] == taken;
    assert (Flatten(batches) + results)[..|Flatten(batches)|] == Flatten(batches);
  }

  /** `fetchOpenLabelItemBatches`: `completed` says that the generator ended normally rather than by a failing
      request. */
  method FetchBatches<T>(pages: seq<Page<T>>, limit: Option<nat>) returns (batches: seq<Batch<T>>, completed: bool)
    ensures Delivered(pages, limit, batches, completed)
  {
    batches := [];
    var results: seq<T> := [];
    var fetched, k, open := 0, 0, true;
    ghost var taken: seq<T> := [];
    StartOfRun(pages, limit);
    while open && !Reached(limit, fetched)
      invariant k <= |pages| && fetched == |taken|
      invariant Yielded(batches, results, taken) && Between(pages, k, taken, limit, open)
      invariant limit.Some? ==> fetched <= limit.value
      decreases |pages| - k
    {
      if k == |pages| {
        RequestFails(pages, limit, batches, results, taken);
        return batches, false;
      }
      ghost var next;
      batches, results, fetched, next := TakeNextPage(pages, k, batches, results, fetched, limit, taken);
      taken := next;
      open, k := pages[k].hasNext, k + 1;
    }
    batches := YieldRest(batches, results, fetched, taken);
    return batches, true;
  }

  lemma StartOfRun<T>(pages: seq<Page<T>>, limit: Option<nat>)
    ensures Between(pages, 0, [], limit, true)
  {
    assert pages[0..] == pages && [] + Available(pages) == Available(pages);
  }
}
