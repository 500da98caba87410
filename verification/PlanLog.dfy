/** The numbered plan log of a tool task, and the orchestrator that writes it while it dispatches and
    retries short-process workers. */
module PlanLog {
  import opened Wrappers
  import opened WorkerQueue

  datatype Kind = InitialPlan | Dispatch | RepairPrepare | Repair | Completed | Failed

  datatype Revision = Revision(number: nat, kind: Kind)

  function Kinds(revisions: seq<Revision>): (r: seq<Kind>)
    ensures |r| == |revisions| && forall i | 0 <= i < |r| :: r[i] == revisions[i].kind
  {
    seq(|revisions|, i requires 0 <= i < |revisions| => revisions[i].kind)
  }

  // ---------------------------------------------------------------- the grammar

  function Pairs(k: nat): (r: seq<Kind>)
    ensures |r| == 2 * k
  {
    if k == 0 then [] else Pairs(k - 1) + [RepairPrepare, Repair]
  }

  /** The log of `k` retries so far. */
  function Opening(k: nat): seq<Kind> {
    [InitialPlan, Dispatch] + Pairs(k)
  }

  /** Which kind may follow which: the log as an automaton. */
  predicate MayFollow(a: Kind, b: Kind) {
    match a
    case InitialPlan => b == Dispatch || b == Failed
    case Dispatch => b == RepairPrepare || b == Completed || b == Failed
    case RepairPrepare => b == Repair
    case Repair => b == RepairPrepare || b == Completed || b == Failed
    case Completed => false
    case Failed => false
  }

  ghost predicate Chain(kinds: seq<Kind>) {
    && kinds != [] && kinds[0] == InitialPlan
    && forall i | 0 <= i < |kinds| - 1 :: MayFollow(kinds[i], kinds[i + 1])
  }

  lemma {:induction false} PairsAt(k: nat, i: nat)
    requires i < 2 * k
    ensures Pairs(k)[i] == if i % 2 == 0 then RepairPrepare else Repair
  {
    if i < 2 * (k - 1) { PairsAt(k - 1, i); }
  }

  /** Every chain that waits for a worker's result has the opening form. */
  lemma {:induction false} ChainOpens(kinds: seq<Kind>)
    requires Chain(kinds) && |kinds| >= 2 && kinds[|kinds| - 1] in {Dispatch, Repair}
    ensures |kinds| % 2 == 0 && kinds == Opening(|kinds| / 2 - 1)
  {
    var n := |kinds|;
    assert MayFollow(kinds[n - 2], kinds[n - 1]);
    if kinds[n - 1] == Repair {
      assert n > 2;
      assert MayFollow(kinds[n - 3], kinds[n - 2]);
      var shorter := kinds[..n - 2];
      ChainOpens(shorter);
      assert kinds == shorter + [RepairPrepare, Repair];
    } else {
      InitialIsFirst(kinds);
      assert kinds == [InitialPlan, Dispatch];
    }
  }

  lemma InitialIsFirst(kinds: seq<Kind>)
    requires Chain(kinds)
    ensures forall i | 0 < i < |kinds| :: kinds[i] != InitialPlan
  {
    forall i | 0 < i < |kinds| ensures kinds[i] != InitialPlan { assert MayFollow(kinds[i - 1], kinds[i]); }
  }

  /** A finished log: the opening form of some number of retries and a verdict, or a plan that was never
      dispatched.  The automaton accepts exactly these. */
  ghost predicate Finished(kinds: seq<Kind>, k: nat) {
    |kinds| == 2 * k + 3 && (kinds == Opening(k) + [Completed] || kinds == Opening(k) + [Failed])
  }

  lemma FinishedIffChain(kinds: seq<Kind>)
    ensures Chain(kinds) && kinds[|kinds| - 1] in {Completed, Failed}
            <==> (exists k: nat :: Finished(kinds, k)) || kinds == [InitialPlan, Failed]
  {
    if Chain(kinds) && kinds[|kinds| - 1] in {Completed, Failed} && |kinds| > 2 {
      var n := |kinds|;
      assert MayFollow(kinds[n - 2], kinds[n - 1]);
      InitialIsFirst(kinds);
      var shorter := kinds[..n - 1];
      ChainOpens(shorter);
      assert kinds == shorter + [kinds[n - 1]];
      assert Finished(kinds, |shorter| / 2 - 1);
    }
    if k: nat :| Finished(kinds, k) { OpeningIsChain(kinds, k); }
  }

  lemma OpeningIsChain(kinds: seq<Kind>, k: nat)
    requires Finished(kinds, k)
    ensures Chain(kinds) && kinds[|kinds| - 1] in {Completed, Failed}
  {
    forall i | 0 <= i < |kinds| - 1 ensures MayFollow(kinds[i], kinds[i + 1]) {
      if 2 <= i < 2 * k + 2 { PairsAt(k, i - 2); assert kinds[i] == Pairs(k)[i - 2]; }
      if 2 <= i + 1 < 2 * k + 2 { PairsAt(k, i - 1); assert kinds[i + 1] == Pairs(k)[i - 1]; }
    }
  }

  // ---------------------------------------------------------------- the plan book

  class PlanBook {
    var currentRevision: nat
    var revisions: seq<Revision>

    /** Revisions are numbered from 1 without gaps. */
    ghost predicate Numbered()
      reads this
    {
      currentRevision == |revisions| && forall i | 0 <= i < |revisions| :: revisions[i].number == i + 1
    }

    constructor ()
      ensures Numbered() && Kinds(revisions) == [InitialPlan]
    {
      currentRevision, revisions := 1, [Revision(1, InitialPlan)];
    }

    method AppendRevision(kind: Kind) returns (number: nat)
      requires Numbered()
      modifies this
      ensures Numbered() && number == currentRevision == old(currentRevision) + 1
      ensures revisions == old(revisions) + [Revision(number, kind)]
      ensures Kinds(revisions) == Kinds(old(revisions)) + [kind]
    {
      number := currentRevision + 1;
      currentRevision := number;
      revisions := revisions + [Revision(number, kind)];
    }
  }

  // ---------------------------------------------------------------- the orchestrator

  /** A task workspace: under which revision it was created, what its queue answered, the final status of its
      run, its report. */
  datatype TaskRecord = TaskRecord(id: Task, revision: nat, result: Result, status: string, report: Option<string>)

  /** What the caller gets: the report of an attempt, a failure without a report, or an exception of the
      queue, which is passed on. */
  datatype Answer = FromReport(task: Task, report: string) | NoReport(task: Task) | Propagated

  function Ids(tasks: seq<TaskRecord>): (r: seq<Task>)
    ensures |r| == |tasks| && forall i | 0 <= i < |r| :: r[i] == tasks[i].id
  {
    seq(|tasks|, i requires 0 <= i < |tasks| => tasks[i].id)
  }

  lemma PrefixGrows(some: seq<Task>, all: seq<Task>)
    requires some <= all && |some| < |all|
    ensures some + [all[|some|]] <= all
  {
  }

  class ToolTaskOrchestrator {
    const maxParallel: nat
    const maxRetries: int
    const timeout: int

    constructor (parallel: nat, retries: int, seconds: int)
      requires parallel >= 1
      ensures maxParallel == parallel && maxRetries == retries && timeout == seconds
    {
      maxParallel, maxRetries, timeout := parallel, retries, seconds;
    }

    /** Run one task in a queue of its own, once, for as long and with as many workers as configured.  The
        queue's answer, the task's final status, and whatever report the worker left. */
    method RunTask(id: Task)
      returns (r: Result, status: string, report: Option<string>, ghost used: LocalWorkerQueue)
      requires maxParallel >= 1
      ensures fresh(used) && used.maxParallel == maxParallel && used.limits == [timeout] && used.attempts <= [id]
      ensures status == if id in used.statuses then used.statuses[id] else ""
      ensures r.Returned? ==>
                r.completed + r.failed == 1 && Terminal(status) && (r.completed > 0 ==> status == "completed")
    {
      var queue := new LocalWorkerQueue(maxParallel);
      queue.Enqueue(id);
      assert queue.pending == [id];
      used := queue;
      ghost var done;
      r, done := queue.RunUntilIdle(timeout);
      status := if id in queue.statuses then queue.statuses[id] else "";
      report := *;
      if r.Returned? {
        assert id in [id];
        assert r.completed > 0 ==> done[0] in done;
      }
    }

    /** The tasks so far: one for each dispatch and repair revision, and each points at its own. */
    ghost predicate OwnRevisions(book: PlanBook, tasks: seq<TaskRecord>)
      reads book
    {
      forall i | 0 <= i < |tasks| ::
        && tasks[i].revision == 2 * i + 2 <= |book.revisions|
        && book.revisions[2 * i + 1] == Revision(tasks[i].revision, if i == 0 then Dispatch else Repair)
    }

    ghost predicate Logged(book: PlanBook, tasks: seq<TaskRecord>, kinds: seq<Kind>)
      reads book
    {
      book.Numbered() && Kinds(book.revisions) == kinds && OwnRevisions(book, tasks)
    }

    /** Write one revision that no task belongs to. */
    method Note(book: PlanBook, kind: Kind, ghost tasks: seq<TaskRecord>, ghost kinds: seq<Kind>)
      requires Logged(book, tasks, kinds)
      modifies book
      ensures Logged(book, tasks, kinds + [kind]) && book.revisions[|book.revisions| - 1].kind == kind
    {
      var _ := book.AppendRevision(kind);
    }

    /** Dispatch or repair: a revision, a task that points at it, and its run. */
    method Attempt(book: PlanBook, id: Task, tasks0: seq<TaskRecord>) returns (tasks: seq<TaskRecord>, r: Result)
      requires maxParallel >= 1 && Logged(book, tasks0, Before(|tasks0|))
      modifies book
      ensures Logged(book, tasks, Opening(|tasks0|)) && |tasks| == |tasks0| + 1 && Ids(tasks) == Ids(tasks0) + [id]
      ensures tasks0 <= tasks
      ensures var last := tasks[|tasks0|];
              && last.id == id && last.result == r
              && (r.Returned? ==> r.completed + r.failed == 1 && Terminal(last.status)
                                  && (r.completed > 0 ==> last.status == "completed"))
    {
      var revision := book.AppendRevision(if tasks0 == [] then Dispatch else Repair);
      BeforeThenOpening(|tasks0|);
      var status, report;
      ghost var used;
      r, status, report, used := RunTask(id);
      tasks := tasks0 + [TaskRecord(id, revision, r, status, report)];
    }

    function LastAnswer(tasks: seq<TaskRecord>): Answer {
      if tasks == [] then NoReport("")
      else
        var last := tasks[|tasks| - 1];
        if last.report.Some? then FromReport(last.id, last.report.value) else NoReport(last.id)
    }

    /** The queue counted the task as completed, and the worker left a report. */
    predicate Succeeded(t: TaskRecord) {
      t.result.Returned? && t.result.completed > 0 && t.report.Some?
    }

    /** The queue answered, but the task did not succeed. */
    predicate Missed(t: TaskRecord) {
      t.result.Returned? && (t.result.completed == 0 || t.report.None?)
    }

    predicate AllMissed(tasks: seq<TaskRecord>) {
      forall i | 0 <= i < |tasks| :: Missed(tasks[i])
    }

    /** The log after an attempt that did not succeed. */
    function Pending(attempt: nat): seq<Kind> {
      if attempt < maxRetries then Before(attempt + 1) else Opening(attempt)
    }

    /** The last task succeeded, none before it did. */
    predicate FirstSuccess(tasks: seq<TaskRecord>) {
      && tasks != [] && AllMissed(tasks[..|tasks| - 1])
      && Succeeded(tasks[|tasks| - 1]) && tasks[|tasks| - 1].status == "completed"
    }

    /** The log of a run that was closed: with the first success, or without one when the retries are used up. */
    ghost predicate Closed(book: PlanBook, tasks: seq<TaskRecord>)
      reads book
    {
      if tasks == [] then maxRetries < 0 && Logged(book, tasks, [InitialPlan, Failed])
      else if AllMissed(tasks) then |tasks| == maxRetries + 1 && Logged(book, tasks, Opening(|tasks| - 1) + [Failed])
      else FirstSuccess(tasks) && |tasks| <= maxRetries + 1 && Logged(book, tasks, Opening(|tasks| - 1) + [Completed])
    }

    /** The queue of the last task raised, all others before it answered. */
    ghost predicate BrokenOff(book: PlanBook, tasks: seq<TaskRecord>)
      reads book
    {
      && tasks != [] && tasks[|tasks| - 1].result.Raised? && AllMissed(tasks[..|tasks| - 1])
      && Logged(book, tasks, Opening(|tasks| - 1))
    }

    /** How a run can end: closed, with the last task's report for an answer, or by an exception. */
    ghost predicate Ended(book: PlanBook, tasks: seq<TaskRecord>, answer: Answer)
      reads book
    {
      if answer.Propagated? then BrokenOff(book, tasks) else answer == LastAnswer(tasks) && Closed(book, tasks)
    }

    lemma LastDecides(tasks0: seq<TaskRecord>, tasks: seq<TaskRecord>)
      requires |tasks| == |tasks0| + 1 && tasks0 <= tasks && AllMissed(tasks0)
      ensures tasks[..|tasks| - 1] == tasks0 && (AllMissed(tasks) <==> Missed(tasks[|tasks0|]))
    {
      assert tasks == tasks0 + [tasks[|tasks0|]];
    }

    /** One turn of the retry loop. */
    method Turn(book: PlanBook, id: Task, tasks0: seq<TaskRecord>)
      returns (tasks: seq<TaskRecord>, stop: bool, answer: Answer)
      requires maxParallel >= 1 && |tasks0| <= maxRetries && Logged(book, tasks0, Before(|tasks0|)) && AllMissed(tasks0)
      modifies book
      ensures |tasks| == |tasks0| + 1 && tasks0 <= tasks && Ids(tasks) == Ids(tasks0) + [id]
      ensures stop <==> tasks[|tasks0|].result.Raised? || Succeeded(tasks[|tasks0|])
      ensures if stop then Ended(book, tasks, answer) else Logged(book, tasks, Pending(|tasks0|)) && AllMissed(tasks)
    {
      var r;
      tasks, r := Attempt(book, id, tasks0);
      LastDecides(tasks0, tasks);
      var last := tasks[|tasks0|];
      stop, answer := true, Propagated;
      if r.Raised? { return; }
      if r.completed > 0 && last.report.Some? {
        Note(book, Completed, tasks, Opening(|tasks0|));
        answer := FromReport(last.id, last.report.value);
        return;
      }
      if |tasks0| < maxRetries { Note(book, RepairPrepare, tasks, Opening(|tasks0|)); }
      stop := false;
    }

    /** The log when the loop is at `tasks` attempts. */
    function AtLoop(tasks: nat): seq<Kind> {
      if tasks == 0 then [InitialPlan] else Pending(tasks - 1)
    }

    lemma NextTurn(n: nat)
      requires n <= maxRetries
      ensures AtLoop(n) == Before(n) && AtLoop(n + 1) == Pending(n)
    {
    }

    method Retry(book: PlanBook, ids: seq<Task>) returns (tasks: seq<TaskRecord>, stop: bool, answer: Answer)
      requires maxParallel >= 1 && |ids| > maxRetries && Logged(book, [], AtLoop(0))
      modifies book
      ensures Ids(tasks) <= ids && (stop ==> Ended(book, tasks, answer))
      ensures !stop ==> AllMissed(tasks) && Logged(book, tasks, AtLoop(|tasks|))
      ensures !stop ==> |tasks| == if maxRetries < 0 then 0 else maxRetries + 1
    {
      tasks, stop, answer := [], false, Propagated;
      while |tasks| <= maxRetries
        invariant |tasks| == 0 || |tasks| <= maxRetries + 1
        invariant Logged(book, tasks, AtLoop(|tasks|)) && Ids(tasks) <= ids && AllMissed(tasks)
        decreases maxRetries - |tasks|
      {
        NextTurn(|tasks|);
        PrefixGrows(Ids(tasks), ids);
        tasks, stop, answer := Turn(book, ids[|tasks|], tasks);
        if stop { return; }
      }
      stop := false;
    }

    /** The retry loop: at most `maxRetries` retries, one for each pair of the log. */
    method Execute(ids: seq<Task>) returns (book: PlanBook, tasks: seq<TaskRecord>, answer: Answer)
      requires maxParallel >= 1 && |ids| > maxRetries
      ensures fresh(book) && Ended(book, tasks, answer) && Ids(tasks) <= ids
    {
      book := new PlanBook();
      var stop;
      tasks, stop, answer := Retry(book, ids);
      if stop { return; }
      Note(book, Failed, tasks, AtLoop(|tasks|));
      answer := LastAnswer(tasks);
    }
  }

  /** The log before the next dispatch or repair. */
  function Before(k: nat): seq<Kind> {
    if k == 0 then [InitialPlan] else Opening(k - 1) + [RepairPrepare]
  }

  lemma BeforeThenOpening(k: nat)
    ensures Before(k) + [if k == 0 then Dispatch else Repair] == Opening(k) && |Before(k)| == 2 * k + 1
  {
    if k > 0 {
      assert Opening(k - 1) + [RepairPrepare] + [Repair] == Opening(k - 1) + [RepairPrepare, Repair];
    }
  }

  /** What a run of the orchestrator writes is one of the finished logs. */
  lemma WrittenLogFinished(kinds: seq<Kind>, tasks: nat, maxRetries: nat)
    requires tasks >= 1
    requires || kinds == Opening(tasks - 1) + [Completed]
             || (kinds == Opening(maxRetries) + [Failed] && tasks == maxRetries + 1)
    ensures Finished(kinds, tasks - 1) && Chain(kinds) && |kinds| == 2 * (tasks - 1) + 3
  {
    OpeningIsChain(kinds, tasks - 1);
  }
}
