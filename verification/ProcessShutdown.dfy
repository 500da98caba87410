/** Stopping verified processes while the environment starts, ends and recycles pids between any two
    operating-system calls. */
module ProcessShutdown {

  /** A process object.  `serial` is its identity; the other fields never change. */
  datatype Proc = Proc(serial: nat, pid: int, start: string, creation: string, text: string)

  predicate Alive(live: map<int, Proc>, x: Proc) {
    x.pid in live && live[x.pid] == x
  }

  /** Only born processes live, each under its own positive pid, and a pid never sees the same start
      marker twice. */
  predicate Lawful(live: map<int, Proc>, born: set<Proc>) {
    && (forall p | p in live :: p > 0 && live[p].pid == p && live[p] in born)
    && (forall x, y | x in born && y in born :: x.pid == y.pid && x.start == y.start ==> x == y)
    && (forall x | x in born :: x.start != "")
  }

  /** What the environment may do: start new processes and end old ones.  Nothing comes back. */
  predicate Evolves(live: map<int, Proc>, born: set<Proc>, live': map<int, Proc>, born': set<Proc>) {
    && born <= born' && Lawful(live', born')
    && forall x | x in born :: Alive(live', x) ==> Alive(live, x)
  }

  /** The answer of a process query. */
  datatype Info = Absent | Unknown | Running(creation: string, text: string, start: string)

  /** The result of a termination: was the kill attempted, and is the exit confirmed or denied? */
  datatype Termination = Termination(attempted: bool, exited: Exit)
  datatype Exit = Confirmed | Denied | NotSaid

  /** What opening a process for termination comes to. */
  datatype Opened = Handle(x: Proc) | NoProcess | NotOpened

  /** One call of the operating system and what it answered; an empty start marker and a query that does not
      know are failed calls. */
  datatype Call =
    | Marker(pid: int, start: string)
    | Query(pid: int, info: Info)
    | Poll(pid: int, gone: bool)
    | Open(pid: int, result: Opened)
    | Times(x: Proc, start: string)
    | Wait(x: Proc, over: bool)
    | Kill(x: Proc, done: bool)

  /** The answers that a stable sample is made of. */
  datatype Sample = Sample(before: string, answer: Info, after: string) {
    function Calls(pid: int): seq<Call> {
      [Marker(pid, before), Query(pid, answer)] + if answer.Running? then [Marker(pid, after)] else []
    }
  }

  /** The answers that a termination by handle is made of, as far as it came. */
  datatype Answers = Answers(result: Opened, start: string, over: bool, killed: bool, ended: bool) {
    /** The calls that they answer, once there is a handle. */
    function Calls(pid: int, expected: string): seq<Call>
      requires result.Handle?
    {
      [Open(pid, result), Times(result.x, start)]
      + if start != expected then []
        else if over then [Wait(result.x, true)]
        else if !killed then [Wait(result.x, false), Kill(result.x, false)]
        else [Wait(result.x, false), Kill(result.x, true), Wait(result.x, ended)]
    }
  }

  predicate NoPolls(calls: seq<Call>) {
    forall c | c in calls :: !c.Poll?
  }

  /** The operating system.  `calls` is the log of what it was asked and answered; `killed` lists the processes
      that `TerminateProcess` was applied to, in order; `witnessed` are those that answered all three queries of
      a stable sample, `unclear` the pids for which a sample came to nothing. */
  class Os {
    var live: map<int, Proc>
    var born: set<Proc>
    ghost var calls: seq<Call>
    ghost var killed: seq<Proc>
    ghost var witnessed: set<Proc>
    ghost var unclear: set<int>
    const self: int

    constructor (helper: int)
      ensures Valid() && calls == [] && killed == [] && witnessed == {} && unclear == {} && self == helper
    {
      live, born, calls, killed, witnessed, unclear, self := map[], {}, [], [], {}, {}, helper;
    }

    ghost predicate Valid()
      reads this
    {
      Lawful(live, born) && (forall x | x in killed :: x in born) && witnessed <= born
    }

    ghost predicate Dead(x: Proc)
      reads this
    {
      x in born && !Alive(live, x)
    }

    /** Time passes; anything lawful may have happened. */
    method Elapse()
      requires Valid()
      modifies this`live, this`born
      ensures Valid() && Evolves(old(live), old(born), live, born)
    {
      var l: map<int, Proc> := *;
      var b: set<Proc> := *;
      if Evolves(live, born, l, b) { live, born := l, b; }
    }

    // -------------------------------------------------------------- primitive calls

    /** The start marker of whoever runs under the pid now, or nothing. */
    method StartMarker(pid: int) returns (m: string)
      requires Valid()
      modifies this`live, this`born, this`calls
      ensures Valid() && Evolves(old(live), old(born), live, born) && calls == old(calls) + [Marker(pid, m)]
      ensures m != "" ==> pid in live && live[pid].start == m
    {
      Elapse();
      var ok: bool := *;
      m := if pid in live && ok then live[pid].start else "";
      calls := calls + [Marker(pid, m)];
    }

    method ProcessInfo(pid: int) returns (info: Info)
      requires Valid()
      modifies this`live, this`born, this`calls
      ensures Valid() && Evolves(old(live), old(born), live, born) && calls == old(calls) + [Query(pid, info)]
      ensures info.Running? ==> pid in live && info == Running(live[pid].creation, live[pid].text, "")
      ensures info.Absent? ==> pid !in live
    {
      Elapse();
      var ok: bool := *;
      info := if !ok then Unknown else if pid in live then Running(live[pid].creation, live[pid].text, "") else Absent;
      calls := calls + [Query(pid, info)];
    }

    /** Is the pid known not to run? */
    method PidGone(pid: int) returns (gone: bool)
      requires Valid()
      modifies this`live, this`born, this`calls
      ensures Valid() && Evolves(old(live), old(born), live, born) && calls == old(calls) + [Poll(pid, gone)]
      ensures gone ==> pid !in live
    {
      Elapse();
      var ok: bool := *;
      gone := ok && pid !in live;
      calls := calls + [Poll(pid, gone)];
    }

    method OpenProcess(pid: int) returns (o: Opened)
      requires Valid()
      modifies this`live, this`born, this`calls
      ensures Valid() && Evolves(old(live), old(born), live, born) && calls == old(calls) + [Open(pid, o)]
      ensures o.Handle? ==> pid in live && live[pid] == o.x
      ensures o.NoProcess? ==> pid !in live
    {
      Elapse();
      var granted: bool := *;
      o := if !granted then NotOpened else if pid in live then Handle(live[pid]) else NoProcess;
      calls := calls + [Open(pid, o)];
    }

    /** The start marker of the process behind a handle. */
    method ProcessTimes(x: Proc) returns (start: string)
      modifies this`calls
      ensures calls == old(calls) + [Times(x, start)] && (start == x.start || start == "")
    {
      var ok: bool := *;
      start := if ok then x.start else "";
      calls := calls + [Times(x, start)];
    }

    /** Is the process behind the handle over? */
    method WaitFor(x: Proc) returns (over: bool)
      requires Valid() && x in born
      modifies this`live, this`born, this`calls
      ensures Valid() && Evolves(old(live), old(born), live, born) && calls == old(calls) + [Wait(x, over)]
      ensures over ==> Dead(x)
    {
      Elapse();
      var signalled: bool := *;
      over := signalled && !Alive(live, x);
      calls := calls + [Wait(x, over)];
    }

    method TerminateProcess(x: Proc) returns (done: bool)
      requires Valid() && x in born
      modifies this`live, this`born, this`calls, this`killed
      ensures Valid() && Evolves(old(live), old(born), live, born) && calls == old(calls) + [Kill(x, done)]
      ensures killed == if done then old(killed) + [x] else old(killed)
    {
      Elapse();
      done := *;
      if done { killed := killed + [x]; }
      calls := calls + [Kill(x, done)];
    }

    // -------------------------------------------------------------- the stable sample

    /** Marker, query, marker: when both markers agree, all three calls spoke to one process. */
    method StableSample(pid: int) returns (info: Info, ghost who: Proc, ghost s: Sample)
      requires Valid()
      modifies this`live, this`born, this`calls, this`witnessed, this`unclear
      ensures Valid() && Evolves(old(live), old(born), live, born) && calls == old(calls) + s.Calls(pid)
      ensures info == if !s.answer.Running? then s.answer
                      else if s.before == "" || s.after == "" || s.before != s.after then Unknown
                      else Running(s.answer.creation, s.answer.text, s.before)
      ensures info.Running? ==>
                && who in witnessed && who.pid == pid && who.start == info.start != ""
                && who.creation == info.creation && who.text == info.text
      ensures witnessed == if info.Running? then old(witnessed) + {who} else old(witnessed)
      ensures unclear == if info.Unknown? then old(unclear) + {pid} else old(unclear)
      ensures info.Absent? ==> forall x | x in old(born) && x.pid == pid :: Dead(x)
    {
      who := Proc(0, pid, "", "", "");
      var before := StartMarker(pid);
      ghost var live1 := live;
      info := ProcessInfo(pid);
      ghost var live2 := live;
      s := Sample(before, info, "");
      if !info.Running? {
        if info.Unknown? { unclear := unclear + {pid}; }
        return;
      }
      var after := StartMarker(pid);
      s := Sample(before, info, after);
      if before == "" || after == "" || before != after {
        unclear := unclear + {pid};
        return Unknown, who, s;
      }
      who := live[pid];
      assert live1[pid] == who;
      assert Alive(live2, who);
      witnessed := witnessed + {who};
      info := info.(start := before);
    }

    // -------------------------------------------------------------- termination by handle

    /** Terminate the object behind a handle, unless it is over already, and wait for its end. */
    method EndProcess(x: Proc) returns (t: Termination, over: bool, killing: bool, ended: bool)
      requires Valid() && x in born
      modifies this`live, this`born, this`calls, this`killed
      ensures Valid() && Evolves(old(live), old(born), live, born)
      ensures over ==> t == Termination(false, Confirmed) && calls == old(calls) + [Wait(x, true)]
      ensures !over && !killing ==>
                t == Termination(true, NotSaid) && calls == old(calls) + [Wait(x, false), Kill(x, false)]
      ensures !over && killing ==>
                && t == Termination(true, if ended then Confirmed else Denied)
                && calls == old(calls) + [Wait(x, false), Kill(x, true), Wait(x, ended)]
      ensures killed == if !over && killing then old(killed) + [x] else old(killed)
      ensures t.exited.Confirmed? ==> Dead(x)
    {
      killing, ended := false, false;
      over := WaitFor(x);
      if over { return Termination(false, Confirmed), over, killing, ended; }
      killing := TerminateProcess(x);
      if !killing { return Termination(true, NotSaid), over, killing, ended; }
      ended := WaitFor(x);
      t := Termination(true, if ended then Confirmed else Denied);
    }

    /** Open a handle on whoever has the pid, check the start marker on the handle, then terminate the
        object behind it.  `target` is the process the caller inspected. */
    method TerminateHandle(pid: int, expected: string, ghost target: Proc) returns (t: Termination, ghost a: Answers)
      requires Valid() && target in born && target.pid == pid && target.start == expected != ""
      modifies this`live, this`born, this`calls, this`killed
      ensures Valid() && Evolves(old(live), old(born), live, born)
      ensures old(calls) + [Open(pid, a.result)] <= calls && NoPolls(calls[|old(calls)|..])
      ensures a.result.NoProcess? ==> t == Termination(false, Confirmed)
      ensures a.result.NotOpened? ==> t == Termination(false, NotSaid)
      ensures a.result.Handle? && a.start != expected ==> t == Termination(false, NotSaid)
      ensures a.result.Handle? && a.start == expected && a.over ==> t == Termination(false, Confirmed)
      ensures a.result.Handle? && a.start == expected && !a.over ==>
                t == Termination(true, if !a.killed then NotSaid else if a.ended then Confirmed else Denied)
      ensures a.result.Handle? ==> calls[|old(calls)|..] == a.Calls(pid, expected)
      ensures killed == if t.attempted && a.killed then old(killed) + [target] else old(killed)
      ensures t.exited.Confirmed? ==> Dead(target)
    {
      t := Termination(false, NotSaid);
      var handle := OpenProcess(pid);
      a := Answers(handle, "", false, false, false);
      if handle.NoProcess? { return Termination(false, Confirmed), a; }
      if handle.NotOpened? { return; }
      var start := ProcessTimes(handle.x);
      a := a.(start := start);
      if start != expected { return; }
      assert handle.x == target;
      ghost var before := calls;
      var over, killing, ended;
      t, over, killing, ended := EndProcess(handle.x);
      a := Answers(handle, start, over, killing, ended);
      LogGrows(old(calls), Open(pid, handle), Times(handle.x, start), before, calls);
    }

    lemma LogGrows(c0: seq<Call>, first: Call, second: Call, c1: seq<Call>, c2: seq<Call>)
      requires c1 == c0 + [first] + [second] && c1 <= c2
      ensures c0 + [first] <= c2 && c2[|c0|..] == [first, second] + c2[|c1|..]
    {
      assert c2 == c1 + c2[|c1|..];
    }

    /** Neither oneself nor without a start marker: anything else is terminated by its handle. */
    method TerminatePid(pid: int, expected: string, ghost target: Proc) returns (t: Termination, ghost a: Answers)
      requires Valid() && (expected != "" ==> target in born && target.pid == pid && target.start == expected)
      modifies this`live, this`born, this`calls, this`killed
      ensures Valid() && Evolves(old(live), old(born), live, born) && old(calls) <= calls
      ensures if pid <= 0 || pid == self || expected == ""
              then t == Termination(false, NotSaid) && calls == old(calls) else Told(t, a, expected)
      ensures NoPolls(calls[|old(calls)|..])
      ensures pid > 0 && pid != self && expected != "" ==> old(calls) + [Open(pid, a.result)] <= calls
      ensures killed == if t.attempted && a.killed then old(killed) + [target] else old(killed)
      ensures t.exited.Confirmed? ==> expected != "" && Dead(target)
    {
      a := Answers(NotOpened, "", false, false, false);
      if pid <= 0 || pid == self || expected == "" { return Termination(false, NotSaid), a; }
      t, a := TerminateHandle(pid, expected, target);
    }

    /** Poll until the pid is known to be gone, for a bounded number of rounds and once more. */
    method WaitForPidExit(pid: int, rounds: nat) returns (gone: bool)
      requires Valid()
      modifies this`live, this`born, this`calls
      ensures Valid() && Evolves(old(live), old(born), live, born) && old(calls) <= calls
      ensures gone <==> pid <= 0 || Poll(pid, true) in calls[|old(calls)|..]
      ensures !gone ==> calls[|old(calls)|..] == seq(rounds + 1, _ => Poll(pid, false))
      ensures gone ==> forall x | x in old(born) && x.pid == pid :: Dead(x)
    {
      if pid <= 0 { return true; }
      gone := false;
      ghost var n := |calls|;
      for i := 0 to rounds + 1
        invariant Valid() && Evolves(old(live), old(born), live, born) && old(calls) <= calls && n == |old(calls)|
        invariant if gone then Poll(pid, true) in calls[n..] else calls[n..] == seq(i, _ => Poll(pid, false))
        invariant gone ==> forall x | x in old(born) && x.pid == pid :: Dead(x)
      {
        if gone { return; }
        ghost var tail := calls[n..];
        gone := PidGone(pid);
        assert calls[n..] == tail + [Poll(pid, gone)];
      }
    }

    /** Is the exit of the target confirmed, by the handle or else by its pid? */
    method TerminationExited(pid: int, t: Termination, rounds: nat, ghost target: Proc) returns (exited: bool)
      requires Valid() && target in born && target.pid == pid && (t.exited.Confirmed? ==> Dead(target))
      modifies this`live, this`born, this`calls
      ensures Valid() && Evolves(old(live), old(born), live, born) && old(calls) <= calls
      ensures t.exited.Confirmed? ==> exited && calls == old(calls)
      ensures t.exited.Denied? ==> !exited && calls == old(calls)
      ensures t.exited.NotSaid? ==> (exited <==> pid <= 0 || Poll(pid, true) in calls[|old(calls)|..])
      ensures t.exited.NotSaid? && !exited ==> calls[|old(calls)|..] == seq(rounds + 1, _ => Poll(pid, false))
      ensures exited ==> Dead(target)
    {
      match t.exited
      case Confirmed => exited := true;
      case Denied => exited := false;
      case NotSaid => exited := WaitForPidExit(pid, rounds);
    }
  }

  /** The termination follows from the answers. */
  predicate Told(t: Termination, a: Answers, expected: string) {
    match a.result
    case NoProcess => t == Termination(false, Confirmed)
    case NotOpened => t == Termination(false, NotSaid)
    case Handle(_) =>
      t == if a.start != expected then Termination(false, NotSaid)
           else if a.over then Termination(false, Confirmed)
           else if !a.killed then Termination(true, NotSaid)
           else Termination(true, if a.ended then Confirmed else Denied)
  }
}
