/** The local worker queue: tasks are started in order as short processes, at most `maxParallel` at a time,
    until none is left or the deadline has passed.  Workers are unconstrained: they start or do not, exit
    or do not, and write what they like into the status of their own task as long as they live. */
module WorkerQueue {
  import opened Wrappers

  type Task = string

  predicate Terminal(status: string) {
    status in ["completed", "failed", "canceled", "archived"]
  }

  /** How the start of one worker ended. */
  datatype Start =
    | Alive                       // started, and approved
    | Refused(started: bool)      // failed to start; no process is left
    | Stuck(started: bool)        // failed to start, and its process could not be reaped
    | Interrupted(started: bool)  // the queue itself was interrupted

  /** One look at a worker: its exit code, if it has exited, and the status of its task then. */
  datatype Poll = Poll(task: Task, code: Option<int>, status: string)

  /** A worker that was terminated, and the status of its task then. */
  datatype Stop = Stop(task: Task, status: string)

  datatype Result =
    | Returned(started: nat, completed: nat, failed: nat, maxRunningSeen: nat)
    | Raised(cleaned: bool)

  datatype Counts = Counts(started: nat, completed: nat, failed: nat, maxRunningSeen: nat)

  predicate Unique(tasks: seq<Task>) {
    forall i, j | 0 <= i < j < |tasks| :: tasks[i] != tasks[j]
  }

  lemma UniqueParts(a: seq<Task>, t: Task, b: seq<Task>)
    requires Unique(a + [t] + b)
    ensures Unique(a + b) && t !in a + b
  {
    var all := a + [t] + b;
    assert all[|a|] == t;
    forall i | 0 <= i < |a + b| ensures (a + b)[i] == all[if i < |a| then i else i + 1] {}
  }

  lemma UniqueApart(a: seq<Task>, b: seq<Task>)
    requires Unique(a + b)
    ensures forall i, j | 0 <= i < |a| && 0 <= j < |b| :: a[i] != b[j]
  {
    forall i, j | 0 <= i < |a| && 0 <= j < |b| ensures a[i] != b[j] {
      assert (a + b)[i] == a[i] && (a + b)[|a| + j] == b[j];
    }
  }

  lemma UniqueMoved(a: seq<Task>, b: seq<Task>, t: Task, c: seq<Task>)
    requires Unique(a + b + [t] + c)
    ensures Unique(a + [t] + b + c) && t !in a + b + c
  {
    UniqueParts(a + b, t, c);
    var all, rest := a + [t] + b + c, a + b + c;
    forall i | 0 <= i < |all| && i != |a| ensures all[i] == rest[if i < |a| then i else i - 1] {}
  }

  /** With unique tasks: those counted as completed have completed, once, and are not open any more. */
  ghost predicate Tally(statuses: map<Task, string>, all: seq<Task>, done: seq<Task>, open: seq<Task>) {
    Unique(all) ==>
      Unique(done + open) && forall t | t in done :: t in all && t in statuses && statuses[t] == "completed"
  }

  ghost predicate Touches(before: map<Task, string>, after: map<Task, string>, touched: seq<Task>) {
    before.Keys <= after.Keys && forall t | t in before && t !in touched :: after[t] == before[t]
  }

  /** Writing into the statuses of open tasks does not matter. */
  lemma TallyKept(before: map<Task, string>, after: map<Task, string>, all: seq<Task>, done: seq<Task>, open: seq<Task>,
                  touched: seq<Task>)
    requires Tally(before, all, done, open) && Touches(before, after, touched) && forall t | t in touched :: t in open
    ensures Tally(after, all, done, open)
  {
    if Unique(all) {
      UniqueApart(done, open);
    }
  }

  /** A task that leaves the open ones without being counted. */
  lemma TallyDropped(statuses: map<Task, string>, all: seq<Task>, done: seq<Task>, a: seq<Task>, t: Task, b: seq<Task>)
    requires Tally(statuses, all, done, a + [t] + b)
    ensures Tally(statuses, all, done, a + b)
  {
    assert done + (a + [t] + b) == done + a + [t] + b && done + (a + b) == done + a + b;
    if Unique(all) { UniqueParts(done + a, t, b); }
  }

  lemma TallyClosed(statuses: map<Task, string>, all: seq<Task>, done: seq<Task>, open: seq<Task>)
    requires Tally(statuses, all, done, open)
    ensures Tally(statuses, all, done, [])
  {
    assert done + [] == (done + open)[..|done|];
  }

  lemma TallyCounted(statuses: map<Task, string>, all: seq<Task>, done: seq<Task>, a: seq<Task>, t: Task, b: seq<Task>)
    requires Tally(statuses, all, done, a + [t] + b) && t in all && t in statuses && statuses[t] == "completed"
    ensures Tally(statuses, all, done + [t], a + b)
  {
    assert done + (a + [t] + b) == done + a + [t] + b && done + [t] + (a + b) == done + [t] + a + b;
    if Unique(all) { UniqueMoved(done, a, t, b); }
  }

  /** Each of the tasks was looked at once, in order; those that had not exited go on. */
  ghost predicate Looked(polls: seq<Poll>, tasks: seq<Task>, running: seq<Task>) {
    && |polls| == |tasks| && (forall k | 0 <= k < |tasks| :: polls[k].task == tasks[k])
    && running == Unfinished(polls)
  }

  function Unfinished(polls: seq<Poll>): seq<Task> {
    if polls == [] then []
    else
      var last := polls[|polls| - 1];
      Unfinished(polls[..|polls| - 1]) + if last.code.None? then [last.task] else []
  }

  /** A round looks at the running tasks first, then at those just started; whoever has not exited goes on. */
  ghost predicate RoundLooked(polls: seq<Poll>, running0: seq<Task>, running: seq<Task>) {
    && |running0| <= |polls| && (forall k | 0 <= k < |running0| :: polls[k].task == running0[k])
    && running == Unfinished(polls)
  }

  lemma LookedNext(polls: seq<Poll>, tasks: seq<Task>, running: seq<Task>, p: Poll)
    requires Looked(polls, tasks, running)
    ensures Looked(polls + [p], tasks + [p.task], if p.code.None? then running + [p.task] else running)
  {
    assert (polls + [p])[..|polls|] == polls;
  }

  lemma OneMore(tasks: seq<Task>, i: nat)
    requires i < |tasks|
    ensures tasks[..i + 1] == tasks[..i] + [tasks[i]]
  {
  }

  /** The workers of these tasks were terminated in order.  A task keeps the final status it had then, and
      else is failed. */
  ghost predicate Stopped(statuses: map<Task, string>, log: seq<Stop>, tasks: seq<Task>) {
    |log| == |tasks| && forall k | 0 <= k < |log| :: log[k].task == tasks[k] && StoppedAs(statuses, log[k])
  }

  ghost predicate StoppedAs(statuses: map<Task, string>, stop: Stop) {
    && stop.task in statuses
    && var final := stop.status in {"completed", "failed", "canceled", "archived"};
       statuses[stop.task] == if final then stop.status else "failed"
  }

  lemma StoppedOn(before: map<Task, string>, after: map<Task, string>, log: seq<Stop>, tasks: seq<Task>,
                  rest: seq<Task>)
    requires Stopped(before, log, tasks) && Touches(before, after, rest)
    requires forall i, j | 0 <= i < |tasks| && 0 <= j < |rest| :: tasks[i] != rest[j]
    ensures Stopped(after, log, tasks)
  {
  }

  lemma StoppedOrNot(before: map<Task, string>, after: map<Task, string>, log: seq<Stop>, tasks: seq<Task>, i: nat,
                     ok: bool, stop: Stop)
    requires i < |tasks| && Unique(tasks)
    requires Stopped(before, log, tasks[..i]) && Touches(before, after, tasks[i..])
    requires ok ==> stop.task == tasks[i] && StoppedAs(after, stop)
    ensures if ok then Stopped(after, log + [stop], tasks[..i + 1]) else Stopped(after, log, tasks[..i])
  {
    StoppedOn(before, after, log, tasks[..i], tasks[i..]);
    assert tasks[..i + 1] == tasks[..i] + [tasks[i]];
  }

  lemma TouchesMore(first: map<Task, string>, before: map<Task, string>, after: map<Task, string>, all: seq<Task>,
                    some: seq<Task>)
    requires Touches(first, before, all) && Touches(before, after, some) && forall t | t in some :: t in all
    ensures Touches(first, after, all)
  {
  }

  /** The rounds from number `n` on began by the deadline. */
  ghost predicate BegunBy(rounds: seq<int>, n: nat, deadline: int) {
    forall k | n <= k < |rounds| :: rounds[k] <= deadline
  }

  lemma BegunNext(rounds: seq<int>, n: nat, deadline: int, now: int)
    requires BegunBy(rounds, n, deadline) && now <= deadline
    ensures BegunBy(rounds + [now], n, deadline)
  {
  }

  lemma AllLeft(tasks: seq<Task>, pending: seq<Task>)
    ensures [] + (tasks[0..] + pending) == tasks + pending && [] + tasks[0..] + pending == tasks + pending
  {
  }

  lemma NextLeft(running: seq<Task>, tasks: seq<Task>, i: nat, pending: seq<Task>)
    requires i < |tasks|
    ensures running + tasks[i..] + pending == running + [tasks[i]] + tasks[i + 1..] + pending
    ensures running + (tasks[i..] + pending) == running + [tasks[i]] + (tasks[i + 1..] + pending)
  {
    assert tasks[i..] == [tasks[i]] + tasks[i + 1..];
  }

  lemma NoneLeft(running: seq<Task>, tasks: seq<Task>, pending: seq<Task>)
    ensures running + tasks[|tasks|..] + pending == running + pending
    ensures running + (tasks[|tasks|..] + pending) == running + pending
  {
  }

  class LocalWorkerQueue {
    const maxParallel: nat
    var pending: seq<Task>
    var statuses: map<Task, string>
    var now: int
    ghost var attempts: seq<Task>
    ghost var launched: seq<Task>   // the tasks a process was created for
    ghost var startups: nat         // how many workers were waited for to come up
    ghost var approved: nat         // how many of them came up
    ghost var interrupts: nat       // how often the queue was interrupted
    ghost var unreaped: nat         // how many terminations were without success
    ghost var stops: seq<Stop>      // the terminations with success
    ghost var polls: seq<Poll>
    ghost var exits: nat            // how many of them found that the worker had exited
    ghost var successes: nat        // and how many of those exits were successes
    ghost var rounds: seq<int>      // when each round began
    ghost var limits: seq<int>      // how much time each run was given

    constructor (parallel: nat)
      requires parallel >= 1
      ensures maxParallel == parallel && pending == [] && attempts == [] && statuses == map[]
      ensures approved == interrupts == unreaped == 0 && launched == [] && stops == []
      ensures polls == [] && rounds == [] && limits == [] && startups == exits == successes == 0
    {
      maxParallel, pending, attempts, statuses := parallel, [], [], map[];
      startups, approved, interrupts, unreaped, exits, successes := 0, 0, 0, 0, 0, 0;
      launched, stops, polls, rounds, limits := [], [], [], [], [];
    }

    method Enqueue(t: Task)
      modifies this`pending, this`statuses
      ensures pending == old(pending) + [t] && statuses == old(statuses)[t := "queued"]
    {
      statuses := statuses[t := "queued"];
      pending := pending + [t];
    }

    predicate Settled(t: Task)
      reads this`statuses
    {
      t in statuses && Terminal(statuses[t])
    }

    /** Every one of the tasks is settled, or still to be dealt with; nothing else is. */
    ghost predicate Accounted(all: seq<Task>, open: seq<Task>)
      reads this`statuses
    {
      && (forall t | t in all :: t in statuses && (Settled(t) || t in open))
      && (forall t | t in open :: t in all)
    }

    /** How many workers were created that have neither been seen to exit nor been terminated. */
    ghost function AtWork(): int
      reads this`launched, this`exits, this`stops
    {
      |launched| - exits - |stops|
    }

    // -------------------------------------------------------------- the environment

    /** Time passes; the living workers may write into the statuses of their tasks. */
    method Elapse(active: seq<Task>, atLeast: nat)
      modifies this`statuses, this`now
      ensures now >= old(now) + atLeast && statuses.Keys == old(statuses).Keys
      ensures forall t | t in statuses && t !in active :: statuses[t] == old(statuses)[t]
    {
      var s: map<Task, string> := *;
      var n: int := *;
      if s.Keys == statuses.Keys && forall t | t in statuses :: t !in active ==> s[t] == statuses[t] { statuses := s; }
      now := if n >= now + atLeast then n else now + atLeast;
    }

    /** Terminate the worker of a task; without success the process could not be reaped. */
    method TerminateWorker(t: Task, active: seq<Task>) returns (ok: bool)
      requires t in statuses
      modifies this`statuses, this`now, this`unreaped, this`stops
      ensures now >= old(now) && statuses.Keys == old(statuses).Keys
      ensures forall x | x in statuses && x !in active :: statuses[x] == old(statuses)[x]
      ensures unreaped == old(unreaped) + if ok then 0 else 1
      ensures stops == old(stops) + if ok then [Stop(t, statuses[t])] else []
    {
      Elapse(active, 0);
      ok := *;
      if ok { stops := stops + [Stop(t, statuses[t])]; } else { unreaped := unreaped + 1; }
    }

    /** Create the process of a worker for an assigned task. */
    method Launch(t: Task, running: seq<Task>) returns (created: bool)
      requires t in statuses && statuses[t] == "assigned"
      modifies this`statuses, this`now, this`launched
      ensures now >= old(now) && statuses.Keys == old(statuses).Keys
      ensures forall x | x in statuses && x !in running :: statuses[x] == old(statuses)[x]
      ensures launched == old(launched) + if created then [t] else []
    {
      Elapse(running, 0);
      created := *;
      if created { launched := launched + [t]; }
    }

    /** Wait until the worker that was just created comes up, or does not. */
    method Startup(active: seq<Task>) returns (ok: bool)
      modifies this`statuses, this`now, this`startups, this`approved
      ensures now >= old(now) && statuses.Keys == old(statuses).Keys
      ensures forall t | t in statuses && t !in active :: statuses[t] == old(statuses)[t]
      ensures startups == old(startups) + 1 && approved == old(approved) + if ok then 1 else 0
    {
      Elapse(active, 0);
      ok := *;
      startups := startups + 1;
      if ok { approved := approved + 1; }
    }

    /** Was the queue interrupted just now? */
    method Interruption() returns (interrupted: bool)
      modifies this`interrupts
      ensures interrupts == old(interrupts) + if interrupted then 1 else 0
    {
      interrupted := *;
      if interrupted { interrupts := interrupts + 1; }
    }

    /** Look whether a worker has exited. */
    method PollWorker(t: Task, active: seq<Task>) returns (code: Option<int>)
      requires t in statuses
      modifies this`statuses, this`now, this`polls, this`exits, this`successes
      ensures now >= old(now) && statuses.Keys == old(statuses).Keys
      ensures polls == old(polls) + [Poll(t, code, statuses[t])]
      ensures exits == old(exits) + if code.Some? then 1 else 0
      ensures successes == old(successes) + if code == Some(0) && statuses[t] == "completed" then 1 else 0
      ensures forall x | x in statuses && x !in active :: statuses[x] == old(statuses)[x]
    {
      Elapse(active, 0);
      code := *;
      polls := polls + [Poll(t, code, statuses[t])];
      if code.Some? { exits := exits + 1; }
      if code == Some(0) && statuses[t] == "completed" { successes := successes + 1; }
    }

    // -------------------------------------------------------------- starting

    /** Start the worker of a task that was just taken from the queue.  A worker that does not come up leaves
        its task failed, unless the queue itself was interrupted. */
    method StartOne(t: Task, running: seq<Task>, ghost all: seq<Task>) returns (r: Start)
      requires Accounted(all, [t] + running + pending)
      modifies this`statuses, this`now, this`launched, this`startups, this`approved
      modifies this`interrupts, this`unreaped, this`stops
      ensures now >= old(now) && Touches(old(statuses), statuses, [t] + running)
      ensures launched == old(launched) + if r.Alive? || r.started then [t] else []
      ensures startups - old(startups) == |launched| - |old(launched)|
      ensures approved == old(approved) + if r.Alive? then 1 else 0
      ensures |stops| + unreaped == |old(stops)| + old(unreaped) + if r.Alive? || !r.started then 0 else 1
      ensures unreaped >= old(unreaped) && interrupts >= old(interrupts)
      ensures r.Interrupted? <==> interrupts > old(interrupts)
      ensures r.Stuck? || r.Refused? ==> statuses[t] == "failed" && (r.Stuck? <==> unreaped > old(unreaped))
      ensures unreaped > old(unreaped) ==> r.Stuck? || r.Interrupted?
      ensures r.Alive? || r.Interrupted? ==> Accounted(all, [t] + running + pending)
      ensures r.Refused? || r.Stuck? ==> Accounted(all, running + pending)
    {
      var created, ok := Assign(t, running, all);
      if ok { return Alive; }
      r := GiveUp(t, running, created, all);
    }

    /** Assign the task, create the process of its worker and wait until it comes up. */
    method Assign(t: Task, running: seq<Task>, ghost all: seq<Task>) returns (created: bool, ok: bool)
      requires Accounted(all, [t] + running + pending)
      modifies this`statuses, this`now, this`launched, this`startups, this`approved
      ensures now >= old(now) && Touches(old(statuses), statuses, [t] + running) && (ok ==> created)
      ensures launched == old(launched) + if created then [t] else []
      ensures startups == old(startups) + if created then 1 else 0
      ensures approved == old(approved) + if ok then 1 else 0
      ensures Accounted(all, [t] + running + pending) && t in statuses
    {
      statuses := statuses[t := "assigned"];
      created := Launch(t, running);
      ok := false;
      if created { ok := Startup([t] + running); }
    }

    /** The worker did not come up: terminate its process, if there is one. */
    method GiveUp(t: Task, running: seq<Task>, created: bool, ghost all: seq<Task>) returns (r: Start)
      requires Accounted(all, [t] + running + pending)
      modifies this`statuses, this`now, this`interrupts, this`unreaped, this`stops
      ensures now >= old(now) && Touches(old(statuses), statuses, [t] + running)
      ensures !r.Alive? && r.started == created && unreaped >= old(unreaped) && interrupts >= old(interrupts)
      ensures |stops| + unreaped == |old(stops)| + old(unreaped) + if created then 1 else 0
      ensures r.Interrupted? <==> interrupts > old(interrupts)
      ensures r.Stuck? || r.Refused? ==> statuses[t] == "failed" && (r.Stuck? <==> unreaped > old(unreaped))
      ensures r.Interrupted? ==> Accounted(all, [t] + running + pending)
      ensures !r.Interrupted? ==> Accounted(all, running + pending)
    {
      var interrupted := Interruption();
      var reaped := true;
      if created { reaped := TerminateWorker(t, [t] + running); }
      if interrupted { return Interrupted(created); }
      statuses := statuses[t := "failed"];
      r := if reaped then Refused(created) else Stuck(created);
    }

    /** Start the first pending task: it joins the running ones when its worker comes up, and else it failed
        and counts so, unless starting it raises. */
    method StartNext(running0: seq<Task>, c0: Counts, ghost all: seq<Task>, ghost done: seq<Task>)
      returns (running: seq<Task>, c: Counts, raised: bool)
      requires pending != [] && Accounted(all, running0 + pending)
      modifies this`statuses, this`now, this`pending, this`attempts, this`launched, this`startups, this`approved
      modifies this`interrupts, this`unreaped, this`stops
      ensures now >= old(now) && attempts == old(attempts) + [old(pending)[0]] && pending == old(pending)[1..]
      ensures c.started - c0.started == |launched| - |old(launched)| <= 1 && c.started >= c0.started
      ensures launched == old(launched) || launched == old(launched) + [old(pending)[0]]
      ensures startups - old(startups) == |launched| - |old(launched)|
      ensures running == running0 + if approved > old(approved) then [old(pending)[0]] else []
      ensures running != running0 ==> c.started == c0.started + 1
      ensures c.completed == c0.completed
      ensures c.maxRunningSeen
              == if running != running0 && |running| > c0.maxRunningSeen then |running| else c0.maxRunningSeen
      ensures unreaped >= old(unreaped) && interrupts >= old(interrupts)
      ensures raised <==> unreaped > old(unreaped) || interrupts > old(interrupts)
      ensures !raised ==> Accounted(all, running + pending)
      ensures !raised ==> c.failed == c0.failed + if running == running0 then 1 else 0
      ensures !raised ==> AtWork() - old(AtWork()) == |running| - |running0| == approved - old(approved)
      ensures forall t | t in running + pending :: t in statuses
      ensures Touches(old(statuses), statuses, running0 + [old(pending)[0]])
      ensures Tally(old(statuses), all, done, running0 + old(pending)) && !raised ==>
                Tally(statuses, all, done, running + pending)
    {
      running, c, raised := running0, c0, false;
      var t := pending[0];
      assert pending == [t] + pending[1..];
      pending, attempts := pending[1..], attempts + [t];
      var r := StartOne(t, running, all);
      assert running + ([t] + pending) == running + [t] + pending;
      if Tally(old(statuses), all, done, running0 + old(pending)) {
        TallyKept(old(statuses), statuses, all, done, running + [t] + pending, [t] + running);
        TallyDropped(statuses, all, done, running, t, pending);
      }
      match r
      case Alive =>
        running := running + [t];
        c := c.(started := c.started + 1,
                maxRunningSeen := if |running| > c.maxRunningSeen then |running| else c.maxRunningSeen);
      case Refused(s) =>
        c := c.(started := if s then c.started + 1 else c.started, failed := c.failed + 1);
      case Stuck(s) =>
        c := c.(started := if s then c.started + 1 else c.started, failed := c.failed + 1);
        raised := true;
      case Interrupted(s) =>
        c := c.(started := if s then c.started + 1 else c.started);
        raised := true;
    }

    /** Start pending tasks, first come first served, while there is room. */
    method Fill(running0: seq<Task>, c0: Counts, ghost all: seq<Task>, ghost done: seq<Task>)
      returns (running: seq<Task>, c: Counts, raised: bool)
      requires Accounted(all, running0 + pending) && |running0| <= maxParallel && c0.maxRunningSeen <= maxParallel
      modifies this`statuses, this`now, this`pending, this`attempts, this`launched, this`startups, this`approved
      modifies this`interrupts, this`unreaped, this`stops
      ensures now >= old(now) && |running| <= maxParallel && c.maxRunningSeen <= maxParallel
      ensures old(attempts) <= attempts && attempts + pending == old(attempts) + old(pending)
      ensures c.started - c0.started == |launched| - |old(launched)| <= |attempts| - |old(attempts)|
      ensures c.started >= c0.started && c.started - |running| >= c0.started - |running0|
      ensures c.completed == c0.completed && running0 <= running
      ensures |running0| <= c0.maxRunningSeen ==>
                c.maxRunningSeen == if |running| > c0.maxRunningSeen then |running| else c0.maxRunningSeen
      ensures raised <==> unreaped > old(unreaped) || interrupts > old(interrupts)
      ensures unreaped >= old(unreaped) && interrupts >= old(interrupts)
      ensures !raised ==> pending == [] || |running| == maxParallel
      ensures !raised ==> AtWork() - old(AtWork()) == |running| - |running0| == approved - old(approved)
      ensures !raised ==> Accounted(all, running + pending)
      ensures !raised ==> c.failed + |running| + |pending| == c0.failed + |running0| + |old(pending)|
      ensures forall t | t in running + pending :: t in statuses
      ensures Touches(old(statuses), statuses, running0 + old(pending))
      ensures Tally(old(statuses), all, done, running0 + old(pending)) && !raised ==>
                Tally(statuses, all, done, running + pending)
    {
      running, c, raised := running0, c0, false;
      while pending != [] && |running| < maxParallel
        invariant now >= old(now) && |running| <= maxParallel && c.maxRunningSeen <= maxParallel
        invariant old(attempts) <= attempts && attempts + pending == old(attempts) + old(pending)
        invariant c.started - c0.started == |launched| - |old(launched)| <= |attempts| - |old(attempts)|
        invariant c.started >= c0.started && c.started - |running| >= c0.started - |running0|
        invariant c.completed == c0.completed && running0 <= running
        invariant |running0| <= c0.maxRunningSeen ==>
                    c.maxRunningSeen == if |running| > c0.maxRunningSeen then |running| else c0.maxRunningSeen
        invariant unreaped == old(unreaped) && interrupts == old(interrupts)
        invariant Accounted(all, running + pending)
        invariant AtWork() - old(AtWork()) == |running| - |running0| == approved - old(approved)
        invariant c.failed + |running| + |pending| == c0.failed + |running0| + |old(pending)|
        invariant Touches(old(statuses), statuses, running0 + old(pending))
        invariant forall t | t in running + pending :: t in running0 + old(pending)
        invariant Tally(old(statuses), all, done, running0 + old(pending)) ==>
                    Tally(statuses, all, done, running + pending)
        decreases |pending|
      {
        running, c, raised := StartNext(running, c, all, done);
        if raised { return; }
      }
    }

    // -------------------------------------------------------------- reaping

    /** Has the worker of `t` exited, and if so, did it complete?  Exit code 0 and a completed status count
        as completed; everything else counts as failed, and a status that is not final becomes failed.
        `p` is what was read. */
    method ReapOne(a: seq<Task>, t: Task, b: seq<Task>, ghost all: seq<Task>, ghost done: seq<Task>)
      returns (code: Option<int>, completed: bool, ghost p: Poll)
      requires Accounted(all, a + [t] + b + pending)
      modifies this`statuses, this`now, this`polls, this`exits, this`successes
      ensures now >= old(now) && Touches(old(statuses), statuses, a + [t] + b)
      ensures polls == old(polls) + [p] && p.task == t && p.code == code
      ensures completed <==> code == Some(0) && p.status == "completed"
      ensures exits == old(exits) + (if code.Some? then 1 else 0)
      ensures successes == old(successes) + (if completed then 1 else 0)
      ensures var final := p.status in {"completed", "failed", "canceled", "archived"};
              statuses[t] == if code.Some? && !final then "failed" else p.status
      ensures Accounted(all, (if code.Some? then a + b else a + [t] + b) + pending)
      ensures Tally(old(statuses), all, done, a + [t] + (b + pending)) ==>
                Tally(statuses, all, if completed then done + [t] else done,
                      if code.Some? then a + (b + pending) else a + [t] + (b + pending))
    {
      code := PollWorker(t, a + [t] + b);
      p := Poll(t, code, statuses[t]);
      ghost var tally := Tally(old(statuses), all, done, a + [t] + (b + pending));
      if tally { TallyKept(old(statuses), statuses, all, done, a + [t] + (b + pending), a + [t] + b); }
      if code.None? { return code, false, p; }
      completed := code.value == 0 && statuses[t] == "completed";
      if tally {
        if completed {
          TallyCounted(statuses, all, done, a, t, b + pending);
        } else {
          TallyDropped(statuses, all, done, a, t, b + pending);
        }
      }
      if !completed && !Terminal(statuses[t]) {
        statuses := statuses[t := "failed"];
      }
    }

    /** Look at one worker; it stays among the running ones exactly when it has not exited. */
    method ReapNext(still: seq<Task>, t: Task, rest: seq<Task>, ghost all: seq<Task>, ghost done0: seq<Task>)
      returns (running: seq<Task>, completed: nat, failed: nat, ghost done: seq<Task>, ghost p: Poll)
      requires Accounted(all, still + [t] + rest + pending)
      modifies this`statuses, this`now, this`polls, this`exits, this`successes
      ensures now >= old(now) && Accounted(all, running + rest + pending)
      ensures polls == old(polls) + [p] && p.task == t
      ensures running == if p.code.None? then still + [t] else still
      ensures completed + failed == (if p.code.None? then 0 else 1) && |done| == |done0| + completed
      ensures exits - old(exits) == completed + failed && successes - old(successes) == completed
      ensures Tally(old(statuses), all, done0, still + [t] + (rest + pending)) ==>
                Tally(statuses, all, done, running + (rest + pending))
    {
      running, completed, failed, done := still, 0, 0, done0;
      var code, good;
      code, good, p := ReapOne(still, t, rest, all, done0);
      if code.None? {
        running := still + [t];
      } else if good {
        completed, done := 1, done0 + [t];
      } else {
        failed := 1;
      }
    }

    /** Where collecting stands when the first `i` running workers have been looked at. */
    ghost predicate Reaping(all: seq<Task>, running0: seq<Task>, i: nat, running: seq<Task>, done: seq<Task>,
                            seen: seq<Poll>, tally: bool)
      reads this`statuses, this`pending
    {
      && i <= |running0| && Accounted(all, running + running0[i..] + pending)
      && Looked(seen, running0[..i], running)
      && (tally ==> Tally(statuses, all, done, running + (running0[i..] + pending)))
    }

    lemma ReapingBegins(all: seq<Task>, running0: seq<Task>, done: seq<Task>, tally: bool)
      requires Accounted(all, running0 + pending) && (tally ==> Tally(statuses, all, done, running0 + pending))
      ensures Reaping(all, running0, 0, [], done, [], tally)
    {
      AllLeft(running0, pending);
    }

    lemma ReapingEnds(all: seq<Task>, running0: seq<Task>, running: seq<Task>, done: seq<Task>, seen: seq<Poll>,
                      tally: bool)
      requires Reaping(all, running0, |running0|, running, done, seen, tally)
      ensures Accounted(all, running + pending) && (tally ==> Tally(statuses, all, done, running + pending))
      ensures Looked(seen, running0, running)
    {
      assert running0[..|running0|] == running0;
      NoneLeft(running, running0, pending);
    }

    /** Look at the worker number `i`. */
    method ReapAt(running0: seq<Task>, i: nat, still: seq<Task>, ghost all: seq<Task>, ghost done0: seq<Task>,
                  ghost seen0: seq<Poll>, ghost tally: bool)
      returns (running: seq<Task>, completed: nat, failed: nat, ghost done: seq<Task>, ghost seen: seq<Poll>)
      requires i < |running0| && Reaping(all, running0, i, still, done0, seen0, tally)
      modifies this`statuses, this`now, this`polls, this`exits, this`successes
      ensures now >= old(now) && Reaping(all, running0, i + 1, running, done, seen, tally)
      ensures |seen| == |seen0| + 1 && seen == seen0 + [seen[|seen0|]] && polls == old(polls) + [seen[|seen0|]]
      ensures |running| + completed + failed == |still| + 1 && |done| == |done0| + completed
      ensures exits - old(exits) == completed + failed && successes - old(successes) == completed
    {
      NextLeft(still, running0, i, pending);
      ghost var p;
      running, completed, failed, done, p := ReapNext(still, running0[i], running0[i + 1..], all, done0);
      LookedNext(seen0, running0[..i], still, p);
      OneMore(running0, i);
      seen := seen0 + [p];
    }

    /** Collect the workers that have exited: each running one is looked at once, in order, and goes on
        running exactly when it has not exited. */
    method Reap(running0: seq<Task>, ghost all: seq<Task>, ghost done0: seq<Task>)
      returns (running: seq<Task>, completed: nat, failed: nat, ghost done: seq<Task>)
      requires Accounted(all, running0 + pending)
      modifies this`statuses, this`now, this`polls, this`exits, this`successes
      ensures now >= old(now) && Accounted(all, running + pending)
      ensures |running| + completed + failed == |running0| && |done| == |done0| + completed
      ensures exits - old(exits) == completed + failed && successes - old(successes) == completed
      ensures old(polls) <= polls && Looked(polls[|old(polls)|..], running0, running)
      ensures Tally(old(statuses), all, done0, running0 + pending) ==> Tally(statuses, all, done, running + pending)
    {
      running, completed, failed, done := [], 0, 0, done0;
      ghost var tally := Tally(statuses, all, done0, running0 + pending);
      ghost var seen: seq<Poll> := [];
      ReapingBegins(all, running0, done, tally);
      for i := 0 to |running0|
        invariant now >= old(now) && Reaping(all, running0, i, running, done, seen, tally)
        invariant |running| + completed + failed == i && |done| == |done0| + completed
        invariant exits - old(exits) == completed + failed && successes - old(successes) == completed
        invariant polls == old(polls) + seen
      {
        var good: nat, bad: nat;
        running, good, bad, done, seen := ReapAt(running0, i, running, all, done, seen, tally);
        completed, failed := completed + good, failed + bad;
      }
      ReapingEnds(all, running0, running, done, seen, tally);
      assert polls[|old(polls)|..] == seen;
    }

    /** Terminate one worker; its task keeps a final status, and else is failed. */
    method StopNext(t: Task, rest: seq<Task>, ghost all: seq<Task>) returns (ok: bool, ghost stop: Stop)
      requires Accounted(all, [t] + rest + pending)
      modifies this`statuses, this`now, this`unreaped, this`stops
      ensures now >= old(now) && Touches(old(statuses), statuses, [t] + rest)
      ensures unreaped == old(unreaped) + if ok then 0 else 1
      ensures stops == old(stops) + if ok then [stop] else []
      ensures ok ==> stop.task == t && StoppedAs(statuses, stop) && Accounted(all, rest + pending)
      ensures !ok ==> Accounted(all, [t] + rest + pending) && t in statuses && statuses[t] == stop.status
    {
      ok := TerminateWorker(t, [t] + rest);
      stop := Stop(t, statuses[t]);
      if !ok { return; }
      if !Terminal(statuses[t]) { statuses := statuses[t := "failed"]; }
    }

    /** The first `i` workers were terminated, as the log says. */
    ghost predicate Stopping(all: seq<Task>, running: seq<Task>, i: nat, first: map<Task, string>, log: seq<Stop>)
      reads this`statuses, this`pending
    {
      && i <= |running| && Accounted(all, running[i..] + pending) && Touches(first, statuses, running) && |log| == i
      && (Unique(running) ==> Stopped(statuses, log, running[..i]))
    }

    lemma StoppingBegins(all: seq<Task>, running: seq<Task>)
      requires Accounted(all, running + pending)
      ensures Stopping(all, running, 0, statuses, [])
    {
      assert running[0..] == running;
    }

    /** Terminate the worker number `i`. */
    method StopAt(running: seq<Task>, i: nat, ghost all: seq<Task>, ghost first: map<Task, string>,
                  ghost log0: seq<Stop>)
      returns (ok: bool, ghost log: seq<Stop>)
      requires i < |running| && Stopping(all, running, i, first, log0)
      modifies this`statuses, this`now, this`unreaped, this`stops
      ensures now >= old(now) && unreaped == old(unreaped) + if ok then 0 else 1
      ensures Stopping(all, running, if ok then i + 1 else i, first, log)
      ensures if ok then stops == old(stops) + [log[i]] && log == log0 + [log[i]]
              else stops == old(stops) && log == log0
    {
      ghost var before := statuses;
      assert running[i..] == [running[i]] + running[i + 1..];
      ghost var stop;
      ok, stop := StopNext(running[i], running[i + 1..], all);
      TouchesMore(first, before, statuses, running, running[i..]);
      if Unique(running) { StoppedOrNot(before, statuses, log0, running, i, ok, stop); }
      log := if ok then log0 + [stop] else log0;
    }

    /** Terminate all running workers; stops at one that cannot be reaped. */
    method StopRunning(running: seq<Task>, ghost all: seq<Task>) returns (ok: bool, stopped: nat)
      requires Accounted(all, running + pending)
      modifies this`statuses, this`now, this`unreaped, this`stops
      ensures now >= old(now) && Touches(old(statuses), statuses, running)
      ensures stopped <= |running| && Accounted(all, running[stopped..] + pending)
      ensures unreaped == old(unreaped) + (if ok then 0 else 1) && (ok <==> stopped == |running|)
      ensures old(stops) <= stops && |stops| == |old(stops)| + stopped
      ensures Unique(running) ==> Stopped(statuses, stops[|old(stops)|..], running[..stopped])
    {
      ok, stopped := true, 0;
      ghost var log: seq<Stop> := [];
      StoppingBegins(all, running);
      while ok && stopped < |running|
        invariant now >= old(now) && Stopping(all, running, stopped, old(statuses), log)
        invariant stops == old(stops) + log && unreaped == old(unreaped) + if ok then 0 else 1
        invariant !ok ==> stopped < |running|
        decreases |running| - stopped, ok
      {
        ghost var before := log;
        ok, log := StopAt(running, stopped, all, old(statuses), log);
        if ok { stopped := stopped + 1; }
        assert old(stops) + before + log[|before|..] == old(stops) + log;
      }
      assert stops[|old(stops)|..] == log;
    }

    /** Fail all pending tasks. */
    method FailPending(running: seq<Task>, ghost all: seq<Task>) returns (failed: nat)
      requires Accounted(all, running + pending)
      modifies this`statuses, this`pending
      ensures pending == [] && failed == |old(pending)| && Accounted(all, running)
      ensures forall t | t in old(pending) :: t in statuses && statuses[t] == "failed"
      ensures Touches(old(statuses), statuses, old(pending))
    {
      failed := 0;
      while pending != []
        invariant Accounted(all, running + pending) && failed + |pending| == |old(pending)|
        invariant Touches(old(statuses), statuses, old(pending))
        invariant forall t | t in pending :: t in old(pending)
        invariant forall t | t in old(pending) && t !in pending :: t in statuses && statuses[t] == "failed"
      {
        var t := pending[0];
        assert pending == [t] + pending[1..];
        pending := pending[1..];
        statuses := statuses[t := "failed"];
        failed := failed + 1;
      }
    }

    /** Terminate all running workers and fail all pending tasks; stops at a worker that cannot be reaped. */
    method FailRunningTasks(running: seq<Task>, ghost all: seq<Task>) returns (ok: bool, left: seq<Task>, failed: nat)
      requires Accounted(all, running + pending)
      modifies this`statuses, this`now, this`pending, this`unreaped, this`stops
      ensures now >= old(now) && (!ok ==> pending == old(pending)) && Accounted(all, left + pending)
      ensures ok ==> left == [] && pending == [] && failed == |running| + |old(pending)| && Accounted(all, [])
      ensures ok ==> forall t | t in old(pending) :: t in statuses && statuses[t] == "failed"
      ensures unreaped == old(unreaped) + if ok then 0 else 1
      ensures !ok ==> failed < |running| && left == running[failed..]
      ensures Touches(old(statuses), statuses, running + old(pending))
      ensures old(stops) <= stops && (ok ==> |stops| == |old(stops)| + |running|)
      ensures ok && Unique(running + old(pending)) ==> Stopped(statuses, stops[|old(stops)|..], running)
    {
      ok, failed := StopRunning(running, all);
      if !ok { return ok, running[failed..], failed; }
      ghost var before, log := statuses, stops[|old(stops)|..];
      assert running[..|running|] == running;
      var more := FailPending([], all);
      left, failed := [], failed + more;
      if Unique(running + old(pending)) {
        assert running == (running + old(pending))[..|running|];
        UniqueApart(running, old(pending));
        StoppedOn(before, statuses, log, running, old(pending));
      }
    }

    /** What happens on the way out of a raise. */
    method CleanUp(running: seq<Task>) returns (r: Result)
      requires forall t | t in running + pending :: t in statuses
      modifies this`statuses, this`now, this`pending, this`unreaped, this`stops
      ensures now >= old(now) && r.Raised? && unreaped == old(unreaped) + if r.cleaned then 0 else 1
      ensures r.cleaned ==> pending == [] && forall t | t in old(pending) :: t in statuses && statuses[t] == "failed"
      ensures !r.cleaned ==> pending == old(pending)
    {
      if pending == [] && running == [] { return Raised(true); }
      var ok, left, failed := FailRunningTasks(running, running + pending);
      r := Raised(ok);
    }

    /** The deadline has passed. */
    method TimeOut(running: seq<Task>, c: Counts, ghost all: seq<Task>, ghost done: seq<Task>) returns (r: Result)
      requires Accounted(all, running + pending)
      modifies this`statuses, this`now, this`pending, this`unreaped, this`stops
      ensures now >= old(now) && unreaped >= old(unreaped) && (r.Raised? <==> unreaped > old(unreaped))
      ensures r.Returned? ==>
                r == Returned(c.started, c.completed, c.failed + |running| + |old(pending)|, c.maxRunningSeen)
      ensures r.Returned? ==> pending == [] && Accounted(all, []) && AtWork() == old(AtWork()) - |running|
      ensures r.Returned? && Tally(old(statuses), all, done, running + old(pending)) ==> Tally(statuses, all, done, [])
      ensures r.Returned? || r == Raised(true) ==>
                pending == [] && forall t | t in old(pending) :: t in statuses && statuses[t] == "failed"
    {
      var ok, left, failed := FailRunningTasks(running, all);
      if !ok {
        r := CleanUp(left);
        return;
      }
      if Tally(old(statuses), all, done, running + old(pending)) {
        TallyKept(old(statuses), statuses, all, done, running + old(pending), running + old(pending));
        TallyClosed(statuses, all, done, running + old(pending));
      }
      r := Returned(c.started, c.completed, c.failed + failed, c.maxRunningSeen);
    }

    // -------------------------------------------------------------- the whole run

    /** The state between two rounds. */
    ghost predicate Going(all: seq<Task>, tried: seq<Task>, running: seq<Task>, c: Counts, done: seq<Task>)
      reads this
    {
      && Accounted(all, running + pending) && Tally(statuses, all, done, running + pending)
      && |running| <= c.maxRunningSeen <= maxParallel && c.maxRunningSeen <= c.started
      && (c.started > 0 && c.maxRunningSeen == 0 ==> c.completed == 0)
      && tried <= attempts && attempts + pending == tried + all
      && c.completed + |running| <= c.started <= |attempts| - |tried|
      && c.completed + c.failed + |running| + |pending| == |all| && |done| == c.completed
    }

    /** The tasks behind the attempted ones are failed. */
    ghost predicate NeverAttemptedFailed(tasks: seq<Task>)
      reads this`statuses, this`attempts
    {
      forall i | |attempts| <= i < |tasks| :: tasks[i] in statuses && statuses[tasks[i]] == "failed"
    }

    /** The counts since the run began are those of the processes created and of the successful exits, and the
        running workers are those that were created, have not been seen to exit and were not terminated. */
    ghost predicate Balanced(running: seq<Task>, c: Counts, launched0: nat, successes0: nat, atWork0: int)
      reads this`launched, this`exits, this`stops, this`successes
    {
      && c.started == |launched| - launched0 && c.completed == successes - successes0
      && AtWork() == atWork0 + |running|
    }

    /** Start what there is room for, collect what has exited, and sleep if anything is left. */
    method Round(running0: seq<Task>, c0: Counts, ghost all: seq<Task>, ghost tried: seq<Task>, ghost done0: seq<Task>,
                 ghost launched0: nat, ghost successes0: nat, ghost atWork0: int)
      returns (running: seq<Task>, c: Counts, raised: bool, ghost done: seq<Task>)
      requires Going(all, tried, running0, c0, done0) && Balanced(running0, c0, launched0, successes0, atWork0)
      modifies this`statuses, this`now, this`pending, this`attempts, this`launched, this`startups, this`approved
      modifies this`interrupts, this`unreaped, this`stops, this`polls, this`exits, this`successes, this`rounds
      ensures !raised ==> Going(all, tried, running, c, done) && Balanced(running, c, launched0, successes0, atWork0)
      ensures !raised ==> old(polls) <= polls && RoundLooked(polls[|old(polls)|..], running0, running)
      ensures !raised ==> |polls| - |old(polls)| == |running0| + approved - old(approved)
      ensures raised <==> unreaped > old(unreaped) || interrupts > old(interrupts)
      ensures unreaped >= old(unreaped) && interrupts >= old(interrupts)
      ensures tried <= attempts && attempts + pending == tried + all
      ensures forall t | t in running + pending :: t in statuses
      ensures now >= old(now) && (pending != [] || running != [] ==> raised || now > old(now))
      ensures rounds == old(rounds) + [old(now)]
    {
      done, rounds := done0, rounds + [now];
      running, c, raised := Fill(running0, c0, all, done0);
      if raised { return; }
      running, c, done := Collect(running, c, all, tried, done0, launched0, successes0, atWork0);
    }

    /** Look at every running worker once, count those that have exited, and sleep if anything is left. */
    method Collect(running0: seq<Task>, c0: Counts, ghost all: seq<Task>, ghost tried: seq<Task>,
                   ghost done0: seq<Task>, ghost launched0: nat, ghost successes0: nat, ghost atWork0: int)
      returns (running: seq<Task>, c: Counts, ghost done: seq<Task>)
      requires Going(all, tried, running0, c0, done0) && Balanced(running0, c0, launched0, successes0, atWork0)
      modifies this`statuses, this`now, this`polls, this`exits, this`successes
      ensures now >= old(now) && (pending != [] || running != [] ==> now > old(now))
      ensures Going(all, tried, running, c, done) && Balanced(running, c, launched0, successes0, atWork0)
      ensures old(polls) <= polls && Looked(polls[|old(polls)|..], running0, running)
    {
      var completed, failed;
      running, completed, failed, done := Reap(running0, all, done0);
      c := c0.(completed := c0.completed + completed, failed := c0.failed + failed);
      Sleep(running, c, all, tried, done);
    }

    /** Let time pass if anything is left. */
    method Sleep(running: seq<Task>, ghost c: Counts, ghost all: seq<Task>, ghost tried: seq<Task>,
                 ghost done: seq<Task>)
      requires Going(all, tried, running, c, done)
      modifies this`statuses, this`now
      ensures Going(all, tried, running, c, done)
      ensures now >= old(now) && (pending != [] || running != [] ==> now > old(now))
    {
      if pending != [] || running != [] {
        ghost var before := statuses;
        Elapse(running, 1);
        TallyKept(before, statuses, all, done, running + pending, running);
      }
    }

    /** What a normal return says of the tasks: each counts once, as completed or as failed, and has a final
        status, completed for the completed ones; nothing is pending; and no more were completed, or at work at
        once, than were started. */
    ghost predicate Idle(all: seq<Task>, tried: seq<Task>, r: Result, done: seq<Task>)
      requires r.Returned?
      reads this`statuses, this`attempts, this`pending
    {
      && pending == [] && r.completed + r.failed == |all| && (forall t | t in all :: Settled(t))
      && r.completed == |done| && Tally(statuses, all, done, [])
      && r.completed <= r.started <= |attempts| - |tried|
      && r.maxRunningSeen <= maxParallel && r.maxRunningSeen <= r.started
      && (r.completed > 0 ==> r.maxRunningSeen > 0)
    }

    lemma NothingLeft(all: seq<Task>, tried: seq<Task>, c: Counts, done: seq<Task>)
      requires Going(all, tried, [], c, done) && pending == []
      ensures Idle(all, tried, Returned(c.started, c.completed, c.failed, c.maxRunningSeen), done)
      ensures tried <= attempts && attempts == tried + all && NeverAttemptedFailed(tried + all)
    {
      TallyClosed(statuses, all, done, [] + pending);
    }

    /** The deadline has passed: a time-out of the whole run. */
    method StopAll(running: seq<Task>, c: Counts, ghost all: seq<Task>, ghost tried: seq<Task>, ghost done: seq<Task>)
      returns (r: Result)
      requires Going(all, tried, running, c, done)
      modifies this`statuses, this`now, this`pending, this`unreaped, this`stops
      ensures now >= old(now) && unreaped >= old(unreaped) && (r.Raised? <==> unreaped > old(unreaped))
      ensures r.Returned? ==> r.started == c.started && r.completed == c.completed
      ensures r.Returned? ==> AtWork() == old(AtWork()) - |running|
      ensures r.Returned? ==> Idle(all, tried, r, done)
      ensures r.Returned? || r == Raised(true) ==> pending == [] && NeverAttemptedFailed(tried + all)
    {
      r := TimeOut(running, c, all, done);
      forall i | |attempts| <= i < |tried + all| ensures (tried + all)[i] in old(pending) {
        assert (tried + all)[i] == old(pending)[i - |attempts|];
      }
    }

    /** A round has raised. */
    method Abandon(running: seq<Task>, ghost all: seq<Task>, ghost tried: seq<Task>) returns (r: Result)
      requires attempts + pending == tried + all && forall t | t in running + pending :: t in statuses
      modifies this`statuses, this`now, this`pending, this`unreaped, this`stops
      ensures now >= old(now) && r.Raised? && unreaped >= old(unreaped)
      ensures r == Raised(true) ==> pending == [] && NeverAttemptedFailed(tried + all)
    {
      r := CleanUp(running);
      forall i | |attempts| <= i < |tried + all| ensures (tried + all)[i] in old(pending) {
        assert (tried + all)[i] == old(pending)[i - |attempts|];
      }
    }

    /** Round after round until the queue is idle, the deadline has passed, or a round raises. */
    method Work(deadline: int, ghost all: seq<Task>, ghost tried: seq<Task>)
      returns (running: seq<Task>, c: Counts, raised: bool, ghost done: seq<Task>)
      requires all == pending && tried == attempts && forall t | t in pending :: t in statuses
      modifies this`statuses, this`now, this`pending, this`attempts, this`launched, this`startups, this`approved
      modifies this`interrupts, this`unreaped, this`stops, this`polls, this`exits, this`successes, this`rounds
      ensures now >= old(now) && tried <= attempts && attempts + pending == tried + all
      ensures !raised ==> Going(all, tried, running, c, done)
      ensures !raised ==> Balanced(running, c, |old(launched)|, old(successes), old(AtWork()))
      ensures !raised ==> now > deadline || (pending == [] && running == [])
      ensures raised <==> unreaped > old(unreaped) || interrupts > old(interrupts)
      ensures unreaped >= old(unreaped) && interrupts >= old(interrupts)
      ensures forall t | t in running + pending :: t in statuses
      ensures old(rounds) <= rounds && BegunBy(rounds, |old(rounds)|, deadline)
    {
      running, c, raised, done := [], Counts(0, 0, 0, 0), false, [];
      assert [] + pending == pending && [] + ([] + pending) == pending;
      while (pending != [] || running != []) && now <= deadline
        invariant now >= old(now) && Going(all, tried, running, c, done)
        invariant Balanced(running, c, |old(launched)|, old(successes), old(AtWork()))
        invariant unreaped == old(unreaped) && interrupts == old(interrupts)
        invariant old(rounds) <= rounds && BegunBy(rounds, |old(rounds)|, deadline)
        decreases deadline - now, |pending| + |running|
      {
        BegunNext(rounds, |old(rounds)|, deadline, now);
        running, c, raised, done :=
          Round(running, c, all, tried, done, |old(launched)|, old(successes), old(AtWork()));
        if raised { return; }
      }
    }

    /** Run until the queue is idle.  On a normal return every task counts exactly once as completed or
        failed and has a final status, and tasks were attempted in the order they were queued, all of them
        unless the deadline passed; the started ones are those whose process was created.  It raises exactly
        when it was interrupted or a worker could not be reaped.  On a return no worker is left behind: each was
        seen to exit or terminated, and the completed ones are those that exited with success.  After a return,
        or a raise whose clean-up succeeds, no task is pending, and those never attempted are failed. */
    method RunUntilIdle(timeout: int) returns (r: Result, ghost done: seq<Task>)
      requires forall t | t in pending :: t in statuses
      modifies this
      ensures old(attempts) <= attempts <= old(attempts) + old(pending)
      ensures r.Returned? ==> Idle(old(pending), old(attempts), r, done) && r.started == |launched| - |old(launched)|
      ensures r.Returned? && now <= old(now) + timeout ==> attempts == old(attempts) + old(pending)
      ensures r.Returned? ==> r.completed == successes - old(successes) && AtWork() == old(AtWork())
      ensures old(rounds) <= rounds
      ensures BegunBy(rounds, |old(rounds)|, old(now) + timeout) && limits == old(limits) + [timeout]
      ensures r.Raised? <==> unreaped > old(unreaped) || interrupts > old(interrupts)
      ensures r.Returned? || r == Raised(true) ==> pending == [] && NeverAttemptedFailed(old(attempts) + old(pending))
    {
      ghost var all, tried := pending, attempts;
      limits := limits + [timeout];
      var deadline := now + timeout;
      var running: seq<Task>, c, raised;
      running, c, raised, done := Work(deadline, all, tried);
      if raised {
        r := Abandon(running, all, tried);
      } else if pending == [] && running == [] {
        NothingLeft(all, tried, c, done);
        r := Returned(c.started, c.completed, c.failed, c.maxRunningSeen);
      } else {
        r := StopAll(running, c, all, tried, done);
      }
    }
  }
}
