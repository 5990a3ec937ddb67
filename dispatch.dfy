/**
 * restore_objects: the page-by-page dispatch loop, the running index and the job status.
 * The thread pool is represented by the order in which each page's tasks complete.
 */
module Dispatch {
  import opened Status
  import opened Listing
  import opened Restore

  /** One submitted restore_object call: the object's key and its assigned index. */
  datatype Task = Task(key: string, index: nat)

  /** The first index of a run: 0 for a fresh run, one past the resumed record's otherwise. */
  function FirstIndex(startIndex: int): (i: nat)
    requires startIndex >= -1
    ensures startIndex == -1 ==> i == 0
    ensures startIndex >= 0 ==> i == startIndex + 1
  {
    if startIndex == -1 then 0 else startIndex + 1
  }

  /** The keys in order, numbered consecutively from `first`. */
  function Numbered(keys: seq<string>, first: nat): (ts: seq<Task>)
    ensures |ts| == |keys|
    ensures forall j :: 0 <= j < |keys| ==> ts[j] == Task(keys[j], first + j)
  {
    seq(|keys|, j requires 0 <= j < |keys| => Task(keys[j], first + j))
  }

  lemma {:induction false} NumberedAppend(a: seq<string>, b: seq<string>, first: nat)
    ensures Numbered(a + b, first) == Numbered(a, first) + Numbered(b, first + |a|)
  {
  }

  lemma {:induction false} KeysAppend(a: seq<Entry>, b: seq<Entry>)
    ensures Keys(a + b) == Keys(a) + Keys(b)
  {
  }

  /** The tasks of every page, page after page, as the loop submits them. */
  function Dispatched(pages: seq<seq<Entry>>, first: nat): seq<Task> {
    if pages == [] then []
    else
      var before := Dispatched(pages[..|pages| - 1], first);
      before + Numbered(Keys(Archived(pages[|pages| - 1])), first + |before|)
  }

  /** One more page adds its eligible keys, numbered on from the tasks before it. */
  lemma {:induction false} DispatchedStep(pages: seq<seq<Entry>>, p: nat, first: nat, before: seq<Task>, index: nat, tasks: seq<Task>)
    requires p < |pages|
    requires before == Dispatched(pages[..p], first)
    requires index == first + |before|
    requires tasks == Numbered(Keys(Archived(pages[p])), index)
    ensures Dispatched(pages[..p + 1], first) == before + tasks
  {
    assert pages[..p + 1][..p] == pages[..p];
  }

  /**
   * Across pages, the tasks are the eligible keys of the whole listing in listing order,
   * numbered with consecutive indices from `first`: no gap and no repeat at page boundaries.
   */
  lemma {:induction false} DispatchedNumbersListing(pages: seq<seq<Entry>>, first: nat)
    ensures Dispatched(pages, first) == Numbered(Keys(AllArchived(pages)), first)
  {
    if pages != [] {
      var n := |pages| - 1;
      DispatchedNumbersListing(pages[..n], first);
      var a, b := Keys(AllArchived(pages[..n])), Keys(Archived(pages[n]));
      var before := Dispatched(pages[..n], first);
      calc {
        Dispatched(pages, first);
        before + Numbered(b, first + |before|);
        Numbered(a, first) + Numbered(b, first + |a|);
        { NumberedAppend(a, b, first); }
        Numbered(a + b, first);
        { KeysAppend(AllArchived(pages[..n]), Archived(pages[n])); }
        Numbered(Keys(AllArchived(pages)), first);
      }
    }
  }

  /** A task's index and key in the whole run. */
  lemma {:induction false} DispatchedIndices(pages: seq<seq<Entry>>, first: nat)
    ensures |Dispatched(pages, first)| == |Archived(Flatten(pages))|
    ensures forall j :: 0 <= j < |Dispatched(pages, first)| ==>
      Dispatched(pages, first)[j] == Task(Archived(Flatten(pages))[j].key, first + j)
  {
    DispatchedNumbersListing(pages, first);
    AllArchivedIsArchivedListing(pages);
  }

  /** The Status restore_object returns for one task. */
  function Outcome(task: Task, heads: string -> Head, calls: string -> Call): Tally {
    StatusOf(heads(task.key), calls(task.key))
  }

  /** The Status restore_object returns for each task, in submission order. */
  function Outcomes(tasks: seq<Task>, heads: string -> Head, calls: string -> Call): (ts: seq<Tally>)
    ensures |ts| == |tasks|
    ensures forall j :: 0 <= j < |tasks| ==> ts[j] == Outcome(tasks[j], heads, calls)
  {
    if tasks == [] then []
    else Outcomes(tasks[..|tasks| - 1], heads, calls) + [Outcome(tasks[|tasks| - 1], heads, calls)]
  }

  lemma {:induction false} OutcomesAppend(a: seq<Task>, b: seq<Task>, heads: string -> Head, calls: string -> Call)
    ensures Outcomes(a + b, heads, calls) == Outcomes(a, heads, calls) + Outcomes(b, heads, calls)
    decreases |b|
  {
    if b == [] {
      assert a + b == a;
    } else {
      assert (a + b)[..|a + b| - 1] == a + b[..|b| - 1];
      OutcomesAppend(a, b[..|b| - 1], heads, calls);
    }
  }

  /** Every result is one outcome. */
  lemma {:induction false} OutcomesAreOutcomes(tasks: seq<Task>, heads: string -> Head, calls: string -> Call)
    ensures forall j :: 0 <= j < |tasks| ==> IsOutcome(Outcomes(tasks, heads, calls)[j])
  {
    if tasks != [] {
      OutcomesAreOutcomes(tasks[..|tasks| - 1], heads, calls);
    }
  }

  /** Every dispatched object is counted once: the counters add up to the number of tasks. */
  lemma {:induction false} TotalsCountTasks(tasks: seq<Task>, heads: string -> Head, calls: string -> Call)
    ensures Sum(Outcomes(tasks, heads, calls)).Count() == |tasks|
    ensures Sum(Outcomes(tasks, heads, calls)).error >= 0
    ensures Sum(Outcomes(tasks, heads, calls)).restored >= 0
    ensures Sum(Outcomes(tasks, heads, calls)).alreadyRestored >= 0
  {
    var ts := Outcomes(tasks, heads, calls);
    OutcomesAreOutcomes(tasks, heads, calls);
    SumOfOutcomes(ts);
  }

  /** The completion order of a page of `n` tasks: each task completes exactly once. */
  predicate CompletionOrder(order: seq<nat>, n: nat) {
    multiset(order) == multiset(Range(n))
  }

  /** For every page, the order in which its tasks complete. */
  predicate CompletionOrders(completion: seq<seq<nat>>, pages: seq<seq<Entry>>) {
    |completion| == |pages| &&
    forall p :: 0 <= p < |pages| ==> CompletionOrder(completion[p], |Archived(pages[p])|)
  }

  lemma {:induction false} PageCompletionOrder(completion: seq<seq<nat>>, pages: seq<seq<Entry>>, p: nat)
    requires CompletionOrders(completion, pages) && p < |pages|
    ensures CompletionOrder(completion[p], |Archived(pages[p])|)
  {
  }

  /**
   * The submission loop of one page: each key gets the next index, in page order.
   */
  method Submit(archivedObjects: seq<string>, index: nat) returns (tasks: seq<Task>, next: nat)
    ensures tasks == Numbered(archivedObjects, index)
    ensures next == index + |archivedObjects|
  {
    tasks := [];
    next := index;
    var j := 0;
    while j < |archivedObjects|
      invariant 0 <= j <= |archivedObjects|
      invariant tasks == Numbered(archivedObjects[..j], index)
      invariant next == index + j
    {
      NumberedAppend(archivedObjects[..j], [archivedObjects[j]], index);
      assert archivedObjects[..j + 1] == archivedObjects[..j] + [archivedObjects[j]];
      tasks := tasks + [Task(archivedObjects[j], next)];
      next := next + 1;
      j := j + 1;
    }
    assert archivedObjects[..j] == archivedObjects;
  }

  /**
   * The completion loop of one page: adds each task's result to the status in the
   * order the tasks complete, which leaves the same totals as submission order.
   */
  method Collect(status: Status, results: seq<Tally>, order: seq<nat>)
    requires CompletionOrder(order, |results|)
    modifies status
    ensures status.Value() == old(status.Value()).Plus(Sum(results))
  {
    ghost var before := status.Value();
    var k := 0;
    while k < |order|
      invariant 0 <= k <= |order|
      invariant status.Value() == before.Plus(SumInOrder(results, order[..k]))
    {
      assert order[..k + 1][..k] == order[..k];
      status.Add(At(results, order[k]));
      k := k + 1;
    }
    assert order[..k] == order;
    CompletionOrderIrrelevant(results, order);
  }

  /**
   * One page of restore_objects: its eligible objects are numbered from `index`,
   * submitted, and their results added to the status in completion order.
   */
  method RestorePage(status: Status, page: seq<Entry>, index: nat, heads: string -> Head, calls: string -> Call,
                     order: seq<nat>) returns (tasks: seq<Task>, next: nat)
    requires CompletionOrder(order, |Archived(page)|)
    modifies status
    ensures tasks == Numbered(Keys(Archived(page)), index)
    ensures next == index + |tasks|
    ensures status.Value() == old(status.Value()).Plus(Sum(Outcomes(tasks, heads, calls)))
  {
    var archivedObjects := Keys(Archived(page));
    tasks, next := Submit(archivedObjects, index);
    var results := Outcomes(tasks, heads, calls);
    Collect(status, results, order);
  }

  /**
   * restore_objects: numbers the eligible objects of each page from the running index,
   * submits them, and adds each page's results to the status as they complete
   * (`completion[p]` is the order in which the tasks of page p complete). The status it
   * returns is the sum of the per-object results in submission order, whatever the
   * completion orders were.
   */
  method RestoreObjects(pages: seq<seq<Entry>>, maxKeys: int, prefix: string, startAfter: string,
                        startIndex: int, objectCount: int, heads: string -> Head, calls: string -> Call,
                        completion: seq<seq<nat>>)
    returns (status: Status, dispatched: seq<Task>, pageCount: int)
    requires maxKeys > 0 && startIndex >= -1
    requires CompletionOrders(completion, pages)
    ensures fresh(status)
    ensures dispatched == Dispatched(pages, FirstIndex(startIndex))
    ensures status.Value() == Sum(Outcomes(dispatched, heads, calls))
    ensures pageCount == if prefix == "" then PageCount(objectCount, maxKeys, startAfter, startIndex) else |pages|
  {
    status := new Status(0, 0, 0);
    var first := FirstIndex(startIndex);
    var index := first;
    dispatched := [];
    var p := 0;
    while p < |pages|
      invariant 0 <= p <= |pages|
      invariant dispatched == Dispatched(pages[..p], first)
      invariant index == first + |dispatched|
      invariant status.Value() == Sum(Outcomes(dispatched, heads, calls))
    {
      PageCompletionOrder(completion, pages, p);
      var tasks, next := RestorePage(status, pages[p], index, heads, calls, completion[p]);
      DispatchedStep(pages, p, first, dispatched, index, tasks);
      SumAppend(Outcomes(dispatched, heads, calls), Outcomes(tasks, heads, calls));
      OutcomesAppend(dispatched, tasks, heads, calls);
      dispatched, index := dispatched + tasks, next;
      p := p + 1;
    }
    assert pages[..p] == pages;
    // Only the progress bar reads the page count, so it is computed here, after the loop.
    if prefix == "" {
      pageCount := PageCount(objectCount, maxKeys, startAfter, startIndex);
    } else {
      pageCount := |pages|;
    }
  }
}
