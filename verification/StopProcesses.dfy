/** The two verified stop procedures of the history-reset helper: a child tree deepest first, and a list
    of sidebar children after a grace period. */
module StopProcesses {
  import opened ProcessTree
  import opened KillOrder
  import opened ProcessShutdown

  /** What became of one child. */
  datatype Outcome =
    | Exited                                       // gone while waiting
    | Missing                                      // gone when it was inspected
    | Ignored                                      // inspected, but not one of ours
    | Terminated(attempted: bool, exited: bool)    // inspected, matched and told to stop
    | Blocked(why: Reason)                         // could not be identified

  /** Why a child was left alone although it may be one to stop. */
  datatype Reason = Unidentified | Nameless | CreationUnknown | CreationChanged

  /** It stands in the way of a verified stop. */
  predicate Blocks(o: Outcome) {
    o.Blocked? || (o.Terminated? && !o.exited)
  }

  /** What has been seen of the world: who lives, who was ever born, who answered a stable sample, and under
      which pids a sample came to nothing. */
  datatype World = World(live: map<int, Proc>, born: set<Proc>, witnessed: set<Proc>, unclear: set<int>)

  ghost function Seen(os: Os): World
    reads os
  {
    World(os.live, os.born, os.witnessed, os.unclear)
  }

  ghost predicate Later(w: World, w': World) {
    && w.born <= w'.born && w.witnessed <= w'.witnessed && w.unclear <= w'.unclear
    && forall x | x in w.born :: Alive(w'.live, x) ==> Alive(w.live, x)
  }

  /** A process whose creation date is the one in the inventory. */
  predicate Matches(x: Proc, byPid: map<int, Row>) {
    x.pid in byPid && x.creation != "" && x.creation == byPid[x.pid].creation
  }

  ghost predicate DeadIn(w: World, x: Proc) {
    x in w.born && !Alive(w.live, x)
  }

  /** What an outcome guarantees: `known` are the processes that existed when the stop began. */
  ghost predicate Justified(w: World, known: set<Proc>, byPid: map<int, Row>, ours: string -> bool, child: int,
                            o: Outcome) {
    match o
    case Exited => forall x | x in known && x.pid == child :: DeadIn(w, x)
    case Missing => forall x | x in known && x.pid == child :: DeadIn(w, x)
    case Terminated(_, exited) =>
      exists x | x in w.witnessed :: x.pid == child && Matches(x, byPid) && ours(x.text) && (exited ==> DeadIn(w, x))
    case Ignored => exists x | x in w.witnessed :: x.pid == child && !ours(x.text)
    case Blocked(Unidentified) => child in w.unclear
    case Blocked(Nameless) => exists x | x in w.witnessed :: x.pid == child && x.text == ""
    case Blocked(CreationUnknown) =>
      && child in byPid
      && exists x | x in w.witnessed :: x.pid == child && (x.creation == "" || byPid[child].creation == "")
    case Blocked(CreationChanged) =>
      child in byPid && exists x | x in w.witnessed :: x.pid == child && x.creation != byPid[child].creation
  }

  lemma JustifiedLater(w: World, w': World, known: set<Proc>, byPid: map<int, Row>, ours: string -> bool, child: int,
                       o: Outcome)
    requires Justified(w, known, byPid, ours, child, o) && Later(w, w') && w.witnessed <= w.born
    ensures Justified(w', known, byPid, ours, child, o)
  {
  }

  ghost predicate AllJustified(w: World, known: set<Proc>, byPid: map<int, Row>, ours: string -> bool,
                               outcomes: map<int, Outcome>) {
    forall p | p in outcomes :: Justified(w, known, byPid, ours, p, outcomes[p])
  }

  lemma AllJustifiedLater(w: World, w': World, known: set<Proc>, byPid: map<int, Row>, ours: string -> bool,
                          outcomes: map<int, Outcome>)
    requires AllJustified(w, known, byPid, ours, outcomes) && Later(w, w') && w.witnessed <= w.born
    ensures AllJustified(w', known, byPid, ours, outcomes)
  {
    forall p | p in outcomes ensures Justified(w', known, byPid, ours, p, outcomes[p]) {
      JustifiedLater(w, w', known, byPid, ours, p, outcomes[p]);
    }
  }

  /** An outcome is all the better justified the fewer processes were known. */
  lemma KnownSmaller(w: World, known: set<Proc>, known': set<Proc>, byPid: map<int, Row>, ours: string -> bool,
                     child: int, o: Outcome)
    requires Justified(w, known, byPid, ours, child, o) && known' <= known
    ensures Justified(w, known', byPid, ours, child, o)
  {
  }

  lemma LaterTransitive(w: World, w': World, w'': World)
    requires Later(w, w') && Later(w', w'')
    ensures Later(w, w'')
  {
  }

  /** The termination of `x` was deserved. */
  ghost predicate Deserved(x: Proc, witnessed: set<Proc>, self: int, byPid: map<int, Row>, ours: string -> bool) {
    x in witnessed && Matches(x, byPid) && ours(x.text) && x.pid != self
  }

  /** The sample is good enough to be compared with the inventory. */
  predicate ToCompare(info: Info, ours: string -> bool, checked: bool) {
    info.Running? && (!checked || (info.text != "" && ours(info.text)))
  }

  /** The handle said that the process is over. */
  predicate ToldExited(a: Answers, start: string) {
    a.result.NoProcess? || (a.result.Handle? && a.start == start && (a.over || (a.killed && a.ended)))
  }

  lemma LastCalls(c0: seq<Call>, c1: seq<Call>, c2: seq<Call>, c: Call)
    requires c0 <= c1 <= c2 && c !in c1[|c0|..]
    ensures c in c2[|c0|..] <==> c in c2[|c1|..]
  {
    assert c2[|c0|..] == c1[|c0|..] + c2[|c1|..];
  }

  /** Tell a sampled process to stop, and find out whether it did: by its handle if that said anything, else by
      polling its pid. */
  method StopMatched(os: Os, child: int, start: string, rounds: nat, ghost who: Proc)
    returns (attempted: bool, exited: bool, ghost a: Answers)
    requires os.Valid() && child > 0 && who in os.born && who.pid == child && who.start == start != ""
    modifies os`live, os`born, os`calls, os`killed
    ensures os.Valid() && Later(old(Seen(os)), Seen(os)) && old(os.calls) <= os.calls
    ensures child != os.self ==> old(os.calls) + [Open(child, a.result)] <= os.calls
    ensures attempted == (child != os.self && a.result.Handle? && a.start == start && !a.over)
    ensures exited == ((child != os.self && ToldExited(a, start)) || Poll(child, true) in os.calls[|old(os.calls)|..])
    ensures os.killed == if attempted && a.killed then old(os.killed) + [who] else old(os.killed)
    ensures attempted && a.killed ==> child != os.self
    ensures exited ==> DeadIn(Seen(os), who)
  {
    var t;
    t, a := os.TerminatePid(child, start, who);
    ghost var told := os.calls;
    exited := os.TerminationExited(child, t, rounds, who);
    attempted := t.attempted;
    LastCalls(old(os.calls), told, os.calls, Poll(child, true));
  }

  /** Sample one child, compare it with its inventory row, and terminate it by handle.  `checked` says
      whether the caller also looks at the command text before the creation date.  The outcome follows from
      the sample and from what the termination was told: a child is told to stop exactly when its sample is
      running, is one of ours, and shows the creation date of its row. */
  method StopOne(os: Os, child: int, byPid: map<int, Row>, ours: string -> bool, checked: bool, rounds: nat)
    returns (o: Outcome, ghost stopped: seq<Proc>, ghost info: Info, ghost s: Sample, ghost a: Answers)
    requires os.Valid() && child in byPid && child > 0 && (!checked ==> forall text :: ours(text))
    modifies os
    ensures os.Valid() && Later(old(Seen(os)), Seen(os)) && old(os.calls) + s.Calls(child) <= os.calls
    ensures info == if !s.answer.Running? then s.answer
                    else if s.before == "" || s.after == "" || s.before != s.after then Unknown
                    else Running(s.answer.creation, s.answer.text, s.before)
    ensures o.Missing? <==> info.Absent?
    ensures o.Ignored? <==> checked && info.Running? && info.text != "" && !ours(info.text)
    ensures o == Blocked(Unidentified) <==> info.Unknown?
    ensures o == Blocked(Nameless) <==> checked && info.Running? && info.text == ""
    ensures o == Blocked(CreationUnknown)
            <==> ToCompare(info, ours, checked) && (byPid[child].creation == "" || info.creation == "")
    ensures o == Blocked(CreationChanged)
            <==> ToCompare(info, ours, checked) && byPid[child].creation != "" && info.creation != ""
                 && info.creation != byPid[child].creation
    ensures o.Terminated?
            <==> ToCompare(info, ours, checked) && info.creation != "" && info.creation == byPid[child].creation
    ensures o.Terminated? && child != os.self ==> old(os.calls) + s.Calls(child) + [Open(child, a.result)] <= os.calls
    ensures o.Terminated? ==>
              o.attempted == (child != os.self && a.result.Handle? && a.start == info.start && !a.over)
    ensures o.Terminated? ==>
              o.exited == ((child != os.self && ToldExited(a, info.start))
                           || Poll(child, true) in os.calls[|old(os.calls)|..])
    ensures os.killed == old(os.killed) + stopped
    ensures |stopped| == if o.Terminated? && o.attempted && a.killed then 1 else 0
    ensures AllDeserved(stopped, os.witnessed, os.self, byPid, ours) && forall x | x in stopped :: x.pid == child
    ensures Justified(Seen(os), old(os.born), byPid, ours, child, o) && !o.Exited? && (o.Ignored? ==> checked)
  {
    stopped, a := [], Answers(NotOpened, "", false, false, false);
    ghost var who;
    var sampled;
    sampled, who, s := os.StableSample(child);
    info := sampled;
    if sampled.Absent? { return Missing, stopped, info, s, a; }
    if sampled.Unknown? { return Blocked(Unidentified), stopped, info, s, a; }
    if checked {
      if sampled.text == "" { return Blocked(Nameless), stopped, info, s, a; }
      if !ours(sampled.text) { return Ignored, stopped, info, s, a; }
    }
    var expected := byPid[child].creation;
    if expected == "" || sampled.creation == "" { return Blocked(CreationUnknown), stopped, info, s, a; }
    if sampled.creation != expected { return Blocked(CreationChanged), stopped, info, s, a; }
    ghost var sampling := os.calls;
    var attempted, exited;
    attempted, exited, a := StopMatched(os, child, sampled.start, rounds, who);
    o := Terminated(attempted, exited);
    LastCalls(old(os.calls), sampling, os.calls, Poll(child, true));
    if attempted && a.killed { stopped := [who]; }
  }

  // ---------------------------------------------------------------- one after the other

  /** The pids of the stopped processes stand in `order`, at the increasing positions `at`. */
  ghost predicate InOrder(stopped: seq<Proc>, order: seq<int>, at: seq<nat>) {
    && |stopped| == |at|
    && (forall k | 0 <= k < |at| :: at[k] < |order| && stopped[k].pid == order[at[k]])
    && (forall j, k | 0 <= j < k < |at| :: at[j] < at[k])
  }

  ghost predicate AllDeserved(stopped: seq<Proc>, witnessed: set<Proc>, self: int, byPid: map<int, Row>,
                              ours: string -> bool) {
    forall x | x in stopped :: Deserved(x, witnessed, self, byPid, ours)
  }

  lemma DeservedGrows(stopped: seq<Proc>, last: seq<Proc>, witnessed: set<Proc>, witnessed': set<Proc>, self: int,
                      byPid: map<int, Row>, ours: string -> bool)
    requires AllDeserved(stopped, witnessed, self, byPid, ours) && witnessed <= witnessed'
    requires AllDeserved(last, witnessed', self, byPid, ours)
    ensures AllDeserved(stopped + last, witnessed', self, byPid, ours)
  {
  }

  lemma InOrderGrows(stopped: seq<Proc>, order: seq<int>, at: seq<nat>, i: nat, x: Proc)
    requires InOrder(stopped, order, at) && i < |order| && x.pid == order[i] && forall k | 0 <= k < |at| :: at[k] < i
    ensures InOrder(stopped + [x], order, at + [i])
  {
  }

  // ---------------------------------------------------------------- the report

  datatype Record = Record(pid: int, attempted: bool, exited: bool)

  datatype Report = Report(terminated: seq<Record>, terminatedPids: seq<int>, blocked: seq<int>, ignored: seq<int>)

  /** The lists after one more child: a termination that was not confirmed stands in two of them. */
  function Noted(r: Report, p: int, o: Outcome): Report {
    match o
    case Exited => r
    case Missing => r
    case Ignored => r.(ignored := r.ignored + [p])
    case Blocked(_) => r.(blocked := r.blocked + [p])
    case Terminated(attempted, exited) =>
      r.(terminated := r.terminated + [Record(p, attempted, exited)],
         terminatedPids := r.terminatedPids + if exited && attempted then [p] else [],
         blocked := r.blocked + if exited then [] else [p])
  }

  /** The pids of the order that are in the set. */
  function Kept(order: seq<int>, s: set<int>): seq<int> {
    if order == [] then []
    else Kept(order[..|order| - 1], s) + if order[|order| - 1] in s then [order[|order| - 1]] else []
  }

  /** The list stands in the given order. */
  ghost predicate OrderedAs(list: seq<int>, order: seq<int>) {
    list == Kept(order, Members(list))
  }

  lemma {:induction false} KeptExactly(order: seq<int>, s: set<int>, t: set<int>)
    requires forall p | p in order :: p in s <==> p in t
    ensures Kept(order, s) == Kept(order, t) && forall p :: p in Kept(order, s) <==> p in order && p in s
  {
    if order != [] {
      var front, last := order[..|order| - 1], order[|order| - 1];
      assert order == front + [last] && last in order;
      KeptExactly(front, s, t);
      assert forall p :: p in order <==> p in front || p == last;
    }
  }

  lemma OrderedNext(list: seq<int>, order: seq<int>, i: nat)
    requires Unique(order) && i < |order| && OrderedAs(list, order[..i])
    ensures OrderedAs(list, order[..i + 1]) && OrderedAs(list + [order[i]], order[..i + 1])
  {
    var before, p := order[..i], order[i];
    NextInOrder(order, i);
    KeptExactly(before, Members(list), Members(list + [p]));
    assert p !in list && p in list + [p];
    assert order[..i + 1][..i] == before;
  }

  /** An earlier place in the list is an earlier place in the order. */
  lemma {:induction false} OrderedPlaces(order: seq<int>, s: set<int>, i: nat, j: nat) returns (a: nat, b: nat)
    requires i < j < |Kept(order, s)|
    ensures a < b < |order| && order[a] == Kept(order, s)[i] && order[b] == Kept(order, s)[j]
  {
    var front := order[..|order| - 1];
    if j < |Kept(front, s)| {
      a, b := OrderedPlaces(front, s, i, j);
    } else {
      KeptExactly(front, s, s);
      var p := Kept(front, s)[i];
      assert p in Kept(front, s);
      a :| 0 <= a < |front| && front[a] == p;
      b := |front|;
    }
  }

  function Pids(ts: seq<Record>): seq<int> {
    seq(|ts|, i requires 0 <= i < |ts| => ts[i].pid)
  }

  ghost predicate ReportOrdered(r: Report, order: seq<int>) {
    && OrderedAs(r.blocked, order) && OrderedAs(r.ignored, order)
    && OrderedAs(r.terminatedPids, order) && OrderedAs(Pids(r.terminated), order)
  }

  /** The lists after the first children of the order, from their outcomes. */
  function Folded(order: seq<int>, outs: seq<Outcome>): Report
    requires |outs| <= |order|
  {
    if outs == [] then Report([], [], [], [])
    else
      var n := |outs| - 1;
      Noted(Folded(order, outs[..n]), order[n], outs[n])
  }

  ghost predicate AsFolded(r: Report, order: seq<int>, i: nat, outs: seq<Outcome>) {
    |outs| == i <= |order| && r == Folded(order, outs)
  }

  lemma NothingFolded(order: seq<int>)
    ensures AsFolded(Report([], [], [], []), order, 0, [])
  {
  }

  lemma FoldedNext(order: seq<int>, outs: seq<Outcome>, o: Outcome)
    requires |outs| < |order|
    ensures Folded(order, outs + [o]) == Noted(Folded(order, outs), order[|outs|], o)
  {
    assert (outs + [o])[..|outs|] == outs;
  }

  lemma {:induction false} FoldedOrdered(order: seq<int>, outs: seq<Outcome>)
    requires Unique(order) && |outs| <= |order|
    ensures ReportOrdered(Folded(order, outs), order[..|outs|])
  {
    if outs != [] {
      var n := |outs| - 1;
      FoldedOrdered(order, outs[..n]);
      NotedOrdered(Folded(order, outs[..n]), order, n, outs[n]);
    }
  }

  lemma NotedOrdered(r: Report, order: seq<int>, i: nat, o: Outcome)
    requires Unique(order) && i < |order| && ReportOrdered(r, order[..i])
    ensures ReportOrdered(Noted(r, order[i], o), order[..i + 1])
  {
    OrderedNext(r.blocked, order, i);
    OrderedNext(r.ignored, order, i);
    OrderedNext(r.terminatedPids, order, i);
    OrderedNext(Pids(r.terminated), order, i);
    ListsNoted(r, order[i], o);
  }

  lemma ListsNoted(r: Report, p: int, o: Outcome)
    ensures var n := Noted(r, p, o);
            && (n.blocked == if Blocks(o) then r.blocked + [p] else r.blocked)
            && (n.ignored == if o.Ignored? then r.ignored + [p] else r.ignored)
            && (n.terminatedPids == if o == Terminated(true, true) then r.terminatedPids + [p] else r.terminatedPids)
            && (Pids(n.terminated) == if o.Terminated? then Pids(r.terminated) + [p] else Pids(r.terminated))
  {
  }

  ghost predicate UniqueRecords(ts: seq<Record>) {
    forall i, j | 0 <= i < j < |ts| :: ts[i].pid != ts[j].pid
  }

  /** The lists hold each child once, where its outcome belongs. */
  ghost predicate Accounts(r: Report, outcomes: map<int, Outcome>) {
    AccountsLists(r, outcomes) && AccountsRecords(r.terminated, outcomes)
  }

  ghost predicate AccountsLists(r: Report, outcomes: map<int, Outcome>) {
    && Unique(r.blocked) && Unique(r.ignored) && Unique(r.terminatedPids)
    && (forall p :: p in r.blocked <==> p in outcomes && Blocks(outcomes[p]))
    && (forall p :: p in r.ignored <==> p in outcomes && outcomes[p].Ignored?)
    && (forall p :: p in r.terminatedPids <==> p in outcomes && outcomes[p] == Terminated(true, true))
  }

  ghost predicate AccountsRecords(ts: seq<Record>, outcomes: map<int, Outcome>) {
    && UniqueRecords(ts)
    && forall t :: t in ts <==> t.pid in outcomes && outcomes[t.pid] == Terminated(t.attempted, t.exited)
  }

  lemma NotedLists(r: Report, outcomes: map<int, Outcome>, p: int, o: Outcome)
    requires AccountsLists(r, outcomes) && p !in outcomes
    ensures AccountsLists(Noted(r, p, o), outcomes[p := o])
  {
    assert p !in r.blocked && p !in r.ignored && p !in r.terminatedPids;
  }

  lemma NotedRecords(r: Report, outcomes: map<int, Outcome>, p: int, o: Outcome)
    requires AccountsRecords(r.terminated, outcomes) && p !in outcomes
    ensures AccountsRecords(Noted(r, p, o).terminated, outcomes[p := o])
  {
    assert forall t | t in r.terminated :: t.pid != p;
  }

  lemma NotedAccounts(r: Report, outcomes: map<int, Outcome>, p: int, o: Outcome)
    requires Accounts(r, outcomes) && p !in outcomes
    ensures Accounts(Noted(r, p, o), outcomes[p := o])
  {
    NotedLists(r, outcomes, p, o);
    NotedRecords(r, outcomes, p, o);
  }

  ghost function Stopped(r: Report): set<int> {
    set t | t in r.terminated && t.exited :: t.pid
  }

  /** Children that were gone before anything was done to them. */
  ghost function Gone(outcomes: map<int, Outcome>): set<int> {
    set p | p in outcomes && (outcomes[p].Exited? || outcomes[p].Missing?)
  }

  ghost function Members(s: seq<int>): set<int> {
    set x | x in s
  }

  lemma StoppedExact(r: Report, outcomes: map<int, Outcome>, p: int)
    requires AccountsRecords(r.terminated, outcomes)
    ensures p in Stopped(r) <==> p in outcomes && outcomes[p].Terminated? && outcomes[p].exited
  {
    if p in outcomes && outcomes[p].Terminated? {
      assert Record(p, outcomes[p].attempted, outcomes[p].exited) in r.terminated;
    }
  }

  /** Where a child stands. */
  lemma PlaceOf(r: Report, outcomes: map<int, Outcome>, p: int)
    requires Accounts(r, outcomes)
    ensures p in Members(r.blocked) <==> p in outcomes && Blocks(outcomes[p])
    ensures p in Members(r.ignored) <==> p in outcomes && outcomes[p].Ignored?
    ensures p in Stopped(r) <==> p in outcomes && outcomes[p].Terminated? && outcomes[p].exited
    ensures p in Gone(outcomes) <==> p in outcomes && (outcomes[p].Exited? || outcomes[p].Missing?)
    ensures p in Members(r.terminatedPids) <==> p in outcomes && outcomes[p] == Terminated(true, true)
  {
    StoppedExact(r, outcomes, p);
  }

  /** Blocked, ignored, stopped and gone children partition all children; every child whose termination was
      not confirmed is blocked, and `terminated_pids` are stopped ones. */
  lemma ReportPartitions(r: Report, outcomes: map<int, Outcome>)
    requires Accounts(r, outcomes)
    ensures outcomes.Keys == Members(r.blocked) + Members(r.ignored) + Stopped(r) + Gone(outcomes)
    ensures Members(r.blocked) !! Members(r.ignored) !! Stopped(r) !! Gone(outcomes)
    ensures forall t | t in r.terminated && !t.exited :: t.pid in r.blocked
    ensures Members(r.terminatedPids) <= Stopped(r)
  {
    var blocked, ignored, stopped, gone := Members(r.blocked), Members(r.ignored), Stopped(r), Gone(outcomes);
    forall p ensures p in outcomes.Keys <==> p in blocked + ignored + stopped + gone { PlaceOf(r, outcomes, p); }
    forall p ensures !(p in blocked && p in ignored) { PlaceOf(r, outcomes, p); }
    forall p ensures !(p in blocked + ignored && p in stopped) { PlaceOf(r, outcomes, p); }
    forall p ensures !(p in blocked + ignored + stopped && p in gone) { PlaceOf(r, outcomes, p); }
    forall p | p in Members(r.terminatedPids) ensures p in stopped { PlaceOf(r, outcomes, p); }
  }

  /** Nothing of ours that was known is left under the pid. */
  ghost predicate Settled(w: World, known: set<Proc>, byPid: map<int, Row>, ours: string -> bool, child: int) {
    || (forall x | x in known && x.pid == child :: DeadIn(w, x))
    || (exists x | x in w.witnessed :: x.pid == child && !ours(x.text))
    || (exists x | x in w.witnessed :: x.pid == child && Matches(x, byPid) && ours(x.text) && DeadIn(w, x))
  }

  /** With nothing blocked every child is gone, is not one of ours, or was stopped. */
  lemma VerifiedMeansSettled(r: Report, outcomes: map<int, Outcome>, w: World, known: set<Proc>, byPid: map<int, Row>,
                             ours: string -> bool)
    requires Accounts(r, outcomes) && AllJustified(w, known, byPid, ours, outcomes) && r.blocked == []
    ensures forall p | p in outcomes :: Settled(w, known, byPid, ours, p)
  {
    forall p | p in outcomes ensures Settled(w, known, byPid, ours, p) {
      assert Justified(w, known, byPid, ours, p, outcomes[p]) && !Blocks(outcomes[p]);
    }
  }

  /** What one more outcome adds to the justifications. */
  lemma JustifiedNext(w: World, w': World, known: set<Proc>, byPid: map<int, Row>, ours: string -> bool,
                      outcomes: map<int, Outcome>, p: int, o: Outcome)
    requires AllJustified(w, known, byPid, ours, outcomes) && Later(w, w') && w.witnessed <= w.born
    requires Justified(w', w.born, byPid, ours, p, o) && known <= w.born
    ensures AllJustified(w', known, byPid, ours, outcomes[p := o])
  {
    AllJustifiedLater(w, w', known, byPid, ours, outcomes);
    KnownSmaller(w', w.born, known, byPid, ours, p, o);
  }

  lemma InOrderNext(stopped: seq<Proc>, last: seq<Proc>, order: seq<int>, at: seq<nat>, i: nat) returns (at': seq<nat>)
    requires InOrder(stopped, order, at) && i < |order| && forall k | 0 <= k < |at| :: at[k] < i
    requires |last| <= 1 && forall x | x in last :: x.pid == order[i]
    ensures InOrder(stopped + last, order, at') && forall k | 0 <= k < |at'| :: at'[k] < i + 1
  {
    if last == [] {
      at' := at;
      assert stopped + last == stopped;
    } else {
      assert last == [last[0]] && last[0] in last;
      InOrderGrows(stopped, order, at, i, last[0]);
      at' := at + [i];
    }
  }

  /** The children looked at so far are accounted for, each with a justified outcome. */
  ghost predicate Handled(w: World, known: set<Proc>, byPid: map<int, Row>, ours: string -> bool, checked: bool,
                          done: seq<int>, r: Report, outcomes: map<int, Outcome>) {
    && outcomes.Keys == (set p | p in done) && Accounts(r, outcomes)
    && AllJustified(w, known, byPid, ours, outcomes)
    && forall p | p in outcomes :: !outcomes[p].Exited? && (outcomes[p].Ignored? ==> checked)
  }

  lemma HandledNext(w: World, w': World, known: set<Proc>, byPid: map<int, Row>, ours: string -> bool, checked: bool,
                    order: seq<int>, i: nat, r: Report, outcomes: map<int, Outcome>, o: Outcome)
    requires Unique(order) && i < |order| && Handled(w, known, byPid, ours, checked, order[..i], r, outcomes)
    requires Later(w, w') && w.witnessed <= w.born && known <= w.born && Justified(w', w.born, byPid, ours, order[i], o)
    requires !o.Exited? && (o.Ignored? ==> checked)
    ensures Handled(w', known, byPid, ours, checked, order[..i + 1], Noted(r, order[i], o), outcomes[order[i] := o])
  {
    NextInOrder(order, i);
    JustifiedNext(w, w', known, byPid, ours, outcomes, order[i], o);
    NotedAccounts(r, outcomes, order[i], o);
  }

  /** The terminations so far were deserved and stand in the given order. */
  ghost predicate Orderly(w: World, self: int, byPid: map<int, Row>, ours: string -> bool, order: seq<int>, i: nat,
                          stopped: seq<Proc>, at: seq<nat>) {
    && InOrder(stopped, order, at) && (forall k | 0 <= k < |at| :: at[k] < i)
    && AllDeserved(stopped, w.witnessed, self, byPid, ours)
  }

  lemma OrderlyNext(w: World, w': World, self: int, byPid: map<int, Row>, ours: string -> bool, order: seq<int>, i: nat,
                    stopped: seq<Proc>, last: seq<Proc>, at: seq<nat>) returns (at': seq<nat>)
    requires Orderly(w, self, byPid, ours, order, i, stopped, at) && i < |order| && w.witnessed <= w'.witnessed
    requires |last| <= 1 && (forall x | x in last :: x.pid == order[i])
    requires AllDeserved(last, w'.witnessed, self, byPid, ours)
    ensures Orderly(w', self, byPid, ours, order, i + 1, stopped + last, at')
  {
    at' := InOrderNext(stopped, last, order, at, i);
    DeservedGrows(stopped, last, w.witnessed, w'.witnessed, self, byPid, ours);
  }

  /** Whoever was stopped was told to, and is listed so. */
  ghost predicate AllTold(stopped: seq<Proc>, outcomes: map<int, Outcome>) {
    forall x | x in stopped :: x.pid in outcomes && outcomes[x.pid].Terminated? && outcomes[x.pid].attempted
  }

  lemma AllToldNext(stopped: seq<Proc>, last: seq<Proc>, outcomes: map<int, Outcome>, p: int, o: Outcome)
    requires AllTold(stopped, outcomes) && p !in outcomes
    requires forall x | x in last :: x.pid == p && o.Terminated? && o.attempted
    ensures AllTold(stopped + last, outcomes[p := o])
  {
  }

  /** Where the stop stands after `i` children. */
  ghost predicate Progress(w: World, known: set<Proc>, self: int, byPid: map<int, Row>, ours: string -> bool,
                           checked: bool, order: seq<int>, i: nat, r: Report, outcomes: map<int, Outcome>,
                           stopped: seq<Proc>, at: seq<nat>) {
    && i <= |order| && Handled(w, known, byPid, ours, checked, order[..i], r, outcomes)
    && Orderly(w, self, byPid, ours, order, i, stopped, at) && AllTold(stopped, outcomes)
  }

  lemma NoProgress(w: World, known: set<Proc>, self: int, byPid: map<int, Row>, ours: string -> bool, checked: bool,
                   order: seq<int>)
    ensures Progress(w, known, self, byPid, ours, checked, order, 0, Report([], [], [], []), map[], [], [])
  {
    assert order[..0] == [];
  }

  /** One more child: sampled, perhaps terminated, and noted. */
  method StopNext(os: Os, order: seq<int>, i: nat, byPid: map<int, Row>, ours: string -> bool, checked: bool,
                  rounds: nat, r0: Report, ghost known: set<Proc>, ghost outcomes0: map<int, Outcome>,
                  ghost stopped0: seq<Proc>, ghost at0: seq<nat>, ghost outs0: seq<Outcome>, ghost start: World,
                  ghost killed0: seq<Proc>)
    returns (r: Report, ghost outcomes: map<int, Outcome>, ghost stopped: seq<Proc>, ghost at: seq<nat>,
             ghost outs: seq<Outcome>)
    requires os.Valid() && known <= os.born && i < |order| && order[i] in byPid && order[i] > 0 && Unique(order)
    requires !checked ==> forall text :: ours(text)
    requires Progress(Seen(os), known, os.self, byPid, ours, checked, order, i, r0, outcomes0, stopped0, at0)
    requires AsFolded(r0, order, i, outs0) && Later(start, Seen(os)) && os.killed == killed0 + stopped0
    modifies os
    ensures os.Valid() && Later(start, Seen(os)) && known <= os.born && os.killed == killed0 + stopped
    ensures old(os.calls) <= os.calls
    ensures Progress(Seen(os), known, os.self, byPid, ours, checked, order, i + 1, r, outcomes, stopped, at)
    ensures AsFolded(r, order, i + 1, outs)
  {
    ghost var w := Seen(os);
    var o;
    ghost var last, info, s, a;
    o, last, info, s, a := StopOne(os, order[i], byPid, ours, checked, rounds);
    LaterTransitive(start, w, Seen(os));
    HandledNext(w, Seen(os), known, byPid, ours, checked, order, i, r0, outcomes0, o);
    NextInOrder(order, i);
    AllToldNext(stopped0, last, outcomes0, order[i], o);
    at := OrderlyNext(w, Seen(os), os.self, byPid, ours, order, i, stopped0, last, at0);
    r, outcomes, outs := Noted(r0, order[i], o), outcomes0[order[i] := o], outs0 + [o];
    FoldedNext(order, outs0, o);
    stopped := stopped0 + last;
    assert killed0 + stopped == killed0 + stopped0 + last;
  }

  /** All children in the order given, each noted with what became of it. */
  method StopAll(os: Os, order: seq<int>, byPid: map<int, Row>, ours: string -> bool, checked: bool, rounds: nat)
    returns (r: Report, ghost outcomes: map<int, Outcome>, ghost stopped: seq<Proc>, ghost at: seq<nat>,
             ghost outs: seq<Outcome>)
    requires os.Valid() && (forall k | 0 <= k < |order| :: order[k] in byPid && order[k] > 0) && Unique(order)
    requires !checked ==> forall text :: ours(text)
    modifies os
    ensures os.Valid() && Later(old(Seen(os)), Seen(os)) && os.killed == old(os.killed) + stopped
    ensures old(os.calls) <= os.calls
    ensures Progress(Seen(os), old(os.born), os.self, byPid, ours, checked, order, |order|, r, outcomes, stopped, at)
    ensures AsFolded(r, order, |order|, outs)
  {
    r, outcomes, stopped, at, outs := Report([], [], [], []), map[], [], [], [];
    ghost var known, start := os.born, Seen(os);
    NothingFolded(order);
    NoProgress(start, known, os.self, byPid, ours, checked, order);
    for i := 0 to |order|
      invariant os.Valid() && Later(start, Seen(os)) && known <= os.born && os.killed == old(os.killed) + stopped
      invariant old(os.calls) <= os.calls
      invariant Progress(Seen(os), known, os.self, byPid, ours, checked, order, i, r, outcomes, stopped, at)
      invariant AsFolded(r, order, i, outs)
    {
      r, outcomes, stopped, at, outs :=
        StopNext(os, order, i, byPid, ours, checked, rounds, r, known, outcomes, stopped, at, outs, start,
                 old(os.killed));
    }
  }

  lemma NextInOrder(order: seq<int>, i: nat)
    requires Unique(order) && i < |order|
    ensures order[..i + 1] == order[..i] + [order[i]] && order[i] in order && order[i] !in order[..i]
  {
    forall x | x in order[..i] ensures x != order[i] { var k :| 0 <= k < i && order[k] == x; }
  }

  // ---------------------------------------------------------------- the child tree

  /** `x` lies at least as deep as `y`, and is another process. */
  ghost predicate Deeper(depths: map<int, nat>, x: Proc, y: Proc) {
    x.pid in depths && y.pid in depths && depths[x.pid] >= depths[y.pid]
  }

  datatype TreeStop = TreeStop(verified: bool, report: Report)

  /** The list is sorted by depth, and by pid where the depths are equal, largest first. */
  ghost predicate ByDepth(list: seq<int>, depths: map<int, nat>) {
    forall i, j | 0 <= i < j < |list| :: DeeperPid(depths, list[i], list[j])
  }

  ghost predicate DeeperPid(depths: map<int, nat>, p: int, q: int) {
    p in depths && q in depths && (depths[p] > depths[q] || (depths[p] == depths[q] && p > q))
  }

  lemma ListByDepth(list: seq<int>, order: seq<int>, depths: map<int, nat>)
    requires OrderedAs(list, order) && SortedDeepestFirst(order, depths) && Unique(order)
    ensures ByDepth(list, depths)
  {
    forall i: nat, j: nat | i < j < |list| ensures DeeperPid(depths, list[i], list[j]) {
      var a, b := OrderedPlaces(order, Members(list), i, j);
      OrderExactly(order, depths, a, b);
    }
  }

  ghost predicate ReportByDepth(r: Report, depths: map<int, nat>) {
    && ByDepth(r.blocked, depths) && ByDepth(r.ignored, depths)
    && ByDepth(r.terminatedPids, depths) && ByDepth(Pids(r.terminated), depths)
  }

  lemma TreeReportOrdered(r: Report, order: seq<int>, depths: map<int, nat>, outs: seq<Outcome>)
    requires AsFolded(r, order, |order|, outs) && SortedDeepestFirst(order, depths) && Unique(order)
    ensures ReportByDepth(r, depths)
  {
    FoldedOrdered(order, outs);
    assert order[..|order|] == order;
    ListByDepth(r.blocked, order, depths);
    ListByDepth(r.ignored, order, depths);
    ListByDepth(r.terminatedPids, order, depths);
    ListByDepth(Pids(r.terminated), order, depths);
  }

  /** Stop the inventoried processes, deepest first. */
  method StopDeepestFirst(os: Os, rows: seq<Row>, rounds: nat)
    returns (r: Report, byPid: map<int, Row>, depths: map<int, nat>, ghost outcomes: map<int, Outcome>,
             ghost stopped: seq<Proc>)
    requires os.Valid()
    modifies os
    ensures os.Valid() && Later(old(Seen(os)), Seen(os)) && os.killed == old(os.killed) + stopped
    ensures byPid.Keys == (set r | r in rows && r.pid > 0 :: r.pid)
    ensures forall p | p in byPid :: byPid[p] in rows && byPid[p].pid == p
    ensures depths.Keys == byPid.Keys && forall p | p in byPid :: depths[p] == Walk(byPid, p, {})
    ensures AllDeserved(stopped, os.witnessed, os.self, byPid, text => true)
    ensures forall j, k | 0 <= j < k < |stopped| :: Deeper(depths, stopped[j], stopped[k])
    ensures outcomes.Keys == byPid.Keys && AllJustified(Seen(os), old(os.born), byPid, text => true, outcomes)
    ensures Accounts(r, outcomes) && forall p | p in outcomes :: !outcomes[p].Exited? && !outcomes[p].Ignored?
    ensures old(os.calls) <= os.calls && AllTold(stopped, outcomes) && ReportByDepth(r, depths)
  {
    var pids: seq<int>, order: seq<int>;
    byPid, pids := IndexByPid(rows);
    depths, order := StopOrder(byPid, pids);
    ghost var at, outs;
    r, outcomes, stopped, at, outs := StopAll(os, order, byPid, text => true, false, rounds);
    forall j, k | 0 <= j < k < |stopped| ensures Deeper(depths, stopped[j], stopped[k]) {
      assert Before(depths, order[at[j]], order[at[k]]);
    }
    TreeReportOrdered(r, order, depths, outs);
  }

  /** A process with the pid and the start marker lived when the inventory was taken. */
  ghost predicate Lived(w: World, pid: int, start: string) {
    pid in w.live && w.live[pid].pid == pid && w.live[pid].start == start
  }

  /** Take the inventory between two looks at the root: one and the same process must answer both. */
  method PinnedInventory(os: Os, root: int, expectedStart: string, queried: bool, table: seq<Row>)
    returns (pinned: bool, rows: seq<Row>, ghost taken: World, ghost before: string, ghost after: string)
    requires os.Valid()
    modifies os`live, os`born, os`calls
    ensures os.Valid() && Later(old(Seen(os)), taken) && Later(taken, Seen(os))
    ensures pinned <==> queried && before == expectedStart != "" && after == before
    ensures os.calls == old(os.calls) + [Marker(root, before)]
                        + if queried && before == expectedStart != "" then [Marker(root, after)] else []
    ensures pinned ==> Lived(taken, root, expectedStart) && Alive(os.live, taken.live[root])
    ensures pinned ==> forall v :: (exists r | r in rows :: r.pid == v) <==> IsDescendant(table, root, os.self, v)
    ensures forall r | r in rows :: r in table && r.pid > 0
  {
    pinned, rows, taken, after := false, [], Seen(os), "";
    var first := os.StartMarker(root);
    before := first;
    ghost var w := Seen(os);
    LaterTransitive(taken, w, w);
    taken := w;
    if first == "" || first != expectedStart || !queried { return; }
    os.Elapse();
    taken := Seen(os);
    rows := Descendants(table, root, os.self);
    var second := os.StartMarker(root);
    after := second;
    if second == "" || second != first { return; }
    pinned := true;
    assert os.live[root] in os.born && w.live[root] in w.born;
    assert os.live[root] == w.live[root];
    assert Alive(taken.live, os.live[root]);
  }

  /** Stop the tree below a root whose identity is pinned around the inventory.  `table` is whatever the
      process-table query returned, if it succeeded.  Only processes whose own stable sample shows the
      creation date of their inventory row are terminated, deepest first; the stop counts as verified
      exactly when the inventory was taken while one and the same root lived and no child is blocked. */
  method StopVerifiedChildTree(os: Os, root: int, expectedStart: string, queried: bool, table: seq<Row>, rounds: nat)
    returns (r: TreeStop, byPid: map<int, Row>, depths: map<int, nat>, ghost pinned: bool, ghost taken: World,
             ghost before: string, ghost after: string, ghost outcomes: map<int, Outcome>, ghost stopped: seq<Proc>)
    requires os.Valid()
    modifies os
    ensures os.Valid() && Later(old(Seen(os)), taken) && Later(taken, Seen(os))
    ensures pinned <==> queried && before == expectedStart != "" && after == before
    ensures old(os.calls) + [Marker(root, before)] <= os.calls
    ensures queried && before == expectedStart != "" ==>
              old(os.calls) + [Marker(root, before), Marker(root, after)] <= os.calls
    ensures os.killed == old(os.killed) + stopped
    ensures pinned ==> queried && forall p :: p in byPid <==> IsDescendant(table, root, os.self, p)
    ensures pinned ==> Lived(taken, root, expectedStart)
    ensures !pinned ==> stopped == [] && r == TreeStop(false, Report([], [], [], []))
    ensures forall p | p in byPid :: byPid[p] in table && byPid[p].pid == p
    ensures depths.Keys == byPid.Keys && forall p | p in byPid :: depths[p] == Walk(byPid, p, {})
    ensures AllDeserved(stopped, os.witnessed, os.self, byPid, text => true)
    ensures forall j, k | 0 <= j < k < |stopped| :: Deeper(depths, stopped[j], stopped[k])
    ensures outcomes.Keys == byPid.Keys && Accounts(r.report, outcomes) && AllTold(stopped, outcomes)
    ensures AllJustified(Seen(os), old(os.born), byPid, text => true, outcomes)
    ensures forall p | p in outcomes :: !outcomes[p].Exited? && !outcomes[p].Ignored?
    ensures ReportByDepth(r.report, depths)
    ensures pinned ==> (r.verified <==> r.report.blocked == [])
    ensures r.verified ==> forall p | p in byPid :: Settled(Seen(os), old(os.born), byPid, text => true, p)
  {
    r, byPid, depths, outcomes, stopped := TreeStop(false, Report([], [], [], [])), map[], map[], map[], [];
    ghost var start := Seen(os);
    var held, rows;
    held, rows, taken, before, after := PinnedInventory(os, root, expectedStart, queried, table);
    pinned := held;
    if !held { return; }
    ghost var w := Seen(os);
    var report;
    report, byPid, depths, outcomes, stopped := StopDeepestFirst(os, rows, rounds);
    LaterTransitive(taken, w, Seen(os));
    forall p | p in outcomes ensures Justified(Seen(os), start.born, byPid, text => true, p, outcomes[p]) {
      KnownSmaller(Seen(os), w.born, start.born, byPid, text => true, p, outcomes[p]);
    }
    r := TreeStop(report.blocked == [], report);
    if r.verified { VerifiedMeansSettled(report, outcomes, Seen(os), start.born, byPid, text => true); }
  }

  /** On an acyclic inventory no process was terminated before one of its listed descendants. */
  lemma DescendantsStoppedFirst(byPid: map<int, Row>, depths: map<int, nat>, stopped: seq<Proc>, j: nat, k: nat, n: nat)
    requires Acyclic(byPid) && depths.Keys == byPid.Keys && forall p | p in byPid :: depths[p] == Walk(byPid, p, {})
    requires forall j, k | 0 <= j < k < |stopped| :: Deeper(depths, stopped[j], stopped[k])
    requires j < |stopped| && k < |stopped| && n > 0 && stopped[k].pid in byPid
    requires Above(byPid, stopped[k].pid, stopped[j].pid, n)
    ensures j < k
  {
    DeeperThanAncestor(byPid, stopped[k].pid, stopped[j].pid, n);
  }

  // ---------------------------------------------------------------- the sidebar children

  datatype SidebarStop = SidebarStop(verified: bool, report: Report)

  /** The pids that are still waited for when `gone` have been popped. */
  function Without(pids: seq<int>, gone: set<int>): seq<int> {
    if pids == [] then [] else
      (if pids[0] in gone then [] else [pids[0]]) + Without(pids[1..], gone)
  }

  lemma {:induction false} WithoutLists(pids: seq<int>, gone: set<int>, all: set<int>)
    requires Lists(pids, all)
    ensures Lists(Without(pids, gone), all - gone)
  {
    if pids != [] {
      assert pids == [pids[0]] + pids[1..];
      assert forall x | x in pids[1..] :: x != pids[0];
      WithoutLists(pids[1..], gone, all - {pids[0]});
      assert pids[0] !in Without(pids[1..], gone);
    }
  }

  /** Give the children a grace period to exit by themselves; `rounds` bounds how often they are polled.  Who is
      found to be gone is not waited for any more, and everybody else was polled in every round. */
  method AwaitExits(os: Os, pids: seq<int>, byPid: map<int, Row>, ours: string -> bool, rounds: nat)
    returns (pending: seq<int>, ghost exited: map<int, Outcome>)
    requires os.Valid() && Lists(pids, byPid.Keys)
    modifies os`live, os`born, os`calls
    ensures os.Valid() && Later(old(Seen(os)), Seen(os)) && old(os.calls) <= os.calls
    ensures Lists(pending, byPid.Keys - exited.Keys) && exited.Keys <= byPid.Keys
    ensures forall p | p in byPid :: p in exited <==> Poll(p, true) in os.calls[|old(os.calls)|..]
    ensures AllPolled(os.calls[|old(os.calls)|..], pending, rounds)
    ensures AllJustified(Seen(os), old(os.born), byPid, ours, exited) && forall p | p in exited :: exited[p] == Exited
  {
    pending, exited := pids, map[];
    ghost var known, n := os.born, |os.calls|;
    for round := 0 to rounds
      invariant os.Valid() && Later(old(Seen(os)), Seen(os)) && known <= os.born
      invariant old(os.calls) <= os.calls && n == |old(os.calls)| && Polled(os.calls[n..], pending, exited, round)
      invariant Lists(pending, byPid.Keys - exited.Keys) && exited.Keys <= byPid.Keys
      invariant AllJustified(Seen(os), known, byPid, ours, exited) && forall p | p in exited :: exited[p] == Exited
    {
      pending, exited := PollAll(os, pending, byPid, ours, exited, known, n, round);
    }
  }

  /** Of the calls: who is gone was seen to be gone, who is waited for was not, but was looked at so many times. */
  ghost predicate Polled(calls: seq<Call>, pending: seq<int>, exited: map<int, Outcome>, times: nat) {
    (forall p :: p in exited <==> Poll(p, true) in calls) && AllPolled(calls, pending, times)
  }

  ghost predicate AllPolled(calls: seq<Call>, pids: seq<int>, times: nat) {
    forall p | p in pids :: multiset(calls)[Poll(p, false)] == times
  }

  /** Within a round: the first `i` were looked at once more. */
  ghost predicate RoundPolled(calls: seq<Call>, pids: seq<int>, i: nat, gone: set<int>, times: nat) {
    forall k | 0 <= k < |pids| && pids[k] !in gone ::
      multiset(calls)[Poll(pids[k], false)] == if k < i then times + 1 else times
  }

  lemma RoundPolledNext(calls: seq<Call>, pids: seq<int>, i: nat, gone: set<int>, times: nat, exit: bool)
    requires RoundPolled(calls, pids, i, gone, times) && i < |pids| && Unique(pids) && pids[i] !in gone
    ensures RoundPolled(calls + [Poll(pids[i], exit)], pids, i + 1, if exit then gone + {pids[i]} else gone, times)
  {
    assert multiset(calls + [Poll(pids[i], exit)]) == multiset(calls) + multiset{Poll(pids[i], exit)};
  }

  lemma RoundOver(calls: seq<Call>, pids: seq<int>, gone: set<int>, pending: seq<int>, times: nat)
    requires RoundPolled(calls, pids, |pids|, gone, times) && forall p | p in pending :: p in pids && p !in gone
    ensures AllPolled(calls, pending, times + 1)
  {
    forall p | p in pending ensures multiset(calls)[Poll(p, false)] == times + 1 {
      var k :| 0 <= k < |pids| && pids[k] == p;
    }
  }

  /** Within a round: who was found to be gone so far. */
  ghost predicate InRound(calls: seq<Call>, pids: seq<int>, i: nat, before: map<int, Outcome>,
                          exited: map<int, Outcome>, gone: set<int>, times: nat) {
    && i <= |pids| && exited.Keys == before.Keys + gone && (forall p | p in gone :: p in pids[..i])
    && (forall p :: p in exited <==> Poll(p, true) in calls) && RoundPolled(calls, pids, i, gone, times)
    && forall p | p in exited :: exited[p] == Exited
  }

  lemma RoundBegins(calls: seq<Call>, pids: seq<int>, before: map<int, Outcome>, times: nat)
    requires Polled(calls, pids, before, times) && forall p | p in before :: before[p] == Exited
    ensures InRound(calls, pids, 0, before, before, {}, times)
  {
  }

  lemma InRoundNext(calls: seq<Call>, pids: seq<int>, i: nat, before: map<int, Outcome>, exited: map<int, Outcome>,
                    gone: set<int>, times: nat, exit: bool)
    requires InRound(calls, pids, i, before, exited, gone, times) && i < |pids| && Unique(pids)
    ensures InRound(calls + [Poll(pids[i], exit)], pids, i + 1, before,
                    if exit then exited[pids[i] := Exited] else exited, if exit then gone + {pids[i]} else gone, times)
  {
    NextInOrder(pids, i);
    RoundPolledNext(calls, pids, i, gone, times, exit);
  }

  lemma RoundEnds(calls: seq<Call>, pids: seq<int>, all: set<int>, before: map<int, Outcome>,
                  exited: map<int, Outcome>, gone: set<int>, times: nat)
    requires InRound(calls, pids, |pids|, before, exited, gone, times) && Lists(pids, all - before.Keys)
    ensures Lists(Without(pids, gone), all - exited.Keys)
    ensures Polled(calls, Without(pids, gone), exited, times + 1)
  {
    WithoutLists(pids, gone, all - before.Keys);
    assert all - before.Keys - gone == all - exited.Keys;
    forall p | p in Without(pids, gone) ensures p in pids && p !in gone { assert p in all - before.Keys - gone; }
    RoundOver(calls, pids, gone, Without(pids, gone), times);
  }

  /** One round. */
  method PollAll(os: Os, pids: seq<int>, byPid: map<int, Row>, ours: string -> bool, ghost before: map<int, Outcome>,
                 ghost known: set<Proc>, ghost n: nat, ghost times: nat)
    returns (pending: seq<int>, ghost exited: map<int, Outcome>)
    requires os.Valid() && known <= os.born && before.Keys <= byPid.Keys && Lists(pids, byPid.Keys - before.Keys)
    requires n <= |os.calls| && Polled(os.calls[n..], pids, before, times)
    requires AllJustified(Seen(os), known, byPid, ours, before) && forall p | p in before :: before[p] == Exited
    modifies os`live, os`born, os`calls
    ensures os.Valid() && Later(old(Seen(os)), Seen(os)) && old(os.calls) <= os.calls
    ensures Lists(pending, byPid.Keys - exited.Keys) && exited.Keys <= byPid.Keys
    ensures Polled(os.calls[n..], pending, exited, times + 1)
    ensures AllJustified(Seen(os), known, byPid, ours, exited) && forall p | p in exited :: exited[p] == Exited
  {
    exited := before;
    ghost var start := Seen(os);
    var gone: set<int> := {};
    RoundBegins(os.calls[n..], pids, before, times);
    for i := 0 to |pids|
      invariant os.Valid() && Later(start, Seen(os)) && known <= os.born && old(os.calls) <= os.calls
      invariant InRound(os.calls[n..], pids, i, before, exited, gone, times)
      invariant AllJustified(Seen(os), known, byPid, ours, exited)
    {
      ghost var tail := os.calls[n..];
      var exit := os.PidGone(pids[i]);
      assert os.calls[n..] == tail + [Poll(pids[i], exit)];
      InRoundNext(tail, pids, i, before, exited, gone, times, exit);
      if exit { gone, exited := gone + {pids[i]}, exited[pids[i] := Exited]; }
    }
    RoundEnds(os.calls[n..], pids, byPid.Keys, before, exited, gone, times);
    pending := Without(pids, gone);
    forall p | p in exited ensures p in byPid { assert p !in before ==> p in pids; }
  }

  predicate Ascending(order: seq<int>) {
    forall i, j | 0 <= i < j < |order| :: order[i] < order[j]
  }

  /** The pids in ascending order. */
  method SortPids(pids: seq<int>, ghost all: set<int>) returns (order: seq<int>)
    requires Lists(pids, all)
    ensures Lists(order, all) && Ascending(order)
  {
    order := [];
    for i := 0 to |pids|
      invariant Ascending(order) && forall x :: x in order <==> x in pids[..i]
    {
      assert pids[..i + 1] == pids[..i] + [pids[i]];
      assert forall x | x in pids[..i] :: x != pids[i];
      var k := 0;
      while k < |order| && order[k] < pids[i]
        invariant 0 <= k <= |order| && forall m | 0 <= m < k :: order[m] < pids[i]
      {
        k := k + 1;
      }
      forall m | k <= m < |order| ensures order[m] > pids[i] { assert order[m] in order; }
      order := order[..k] + [pids[i]] + order[k..];
    }
    assert pids[..|pids|] == pids;
  }

  /** Children that exited by themselves are in none of the lists. */
  lemma AccountsWithExited(r: Report, exited: map<int, Outcome>, inspected: map<int, Outcome>)
    requires Accounts(r, inspected) && exited.Keys !! inspected.Keys && forall p | p in exited :: exited[p] == Exited
    ensures Accounts(r, exited + inspected)
  {
  }

  lemma JustifiedWithExited(w: World, w': World, known: set<Proc>, byPid: map<int, Row>, ours: string -> bool,
                            exited: map<int, Outcome>, inspected: map<int, Outcome>)
    requires AllJustified(w, known, byPid, ours, exited) && Later(w, w') && w.witnessed <= w.born && known <= w.born
    requires AllJustified(w', w.born, byPid, ours, inspected)
    ensures AllJustified(w', known, byPid, ours, exited + inspected)
  {
    AllJustifiedLater(w, w', known, byPid, ours, exited);
    forall p | p in inspected ensures Justified(w', known, byPid, ours, p, inspected[p]) {
      KnownSmaller(w', w.born, known, byPid, ours, p, inspected[p]);
    }
  }

  lemma ToldWithExited(stopped: seq<Proc>, exited: map<int, Outcome>, inspected: map<int, Outcome>)
    requires AllTold(stopped, inspected)
    ensures AllTold(stopped, exited + inspected)
  {
  }

  lemma StoppedAscending(stopped: seq<Proc>, order: seq<int>, at: seq<nat>)
    requires InOrder(stopped, order, at) && Ascending(order)
    ensures forall j, k | 0 <= j < k < |stopped| :: stopped[j].pid < stopped[k].pid
  {
  }

  lemma ListAscends(list: seq<int>, order: seq<int>)
    requires OrderedAs(list, order) && Ascending(order)
    ensures Ascending(list)
  {
    forall i, j | 0 <= i < j < |list| ensures list[i] < list[j] {
      var a, b := OrderedPlaces(order, Members(list), i, j);
    }
  }

  ghost predicate ReportAscends(r: Report) {
    Ascending(r.blocked) && Ascending(r.ignored) && Ascending(r.terminatedPids) && Ascending(Pids(r.terminated))
  }

  lemma SidebarReportOrdered(r: Report, order: seq<int>, outs: seq<Outcome>)
    requires AsFolded(r, order, |order|, outs) && Ascending(order)
    ensures ReportAscends(r)
  {
    FoldedOrdered(order, outs);
    assert order[..|order|] == order;
    ListAscends(r.blocked, order);
    ListAscends(r.ignored, order);
    ListAscends(r.terminatedPids, order);
    ListAscends(Pids(r.terminated), order);
  }

  lemma PollsKept(c0: seq<Call>, c1: seq<Call>, c2: seq<Call>, exited: map<int, Outcome>,
                  inspected: map<int, Outcome>, outcomes: map<int, Outcome>, pending: seq<int>, grace: nat)
    requires c0 <= c1 <= c2
    requires forall p | p in exited :: Poll(p, true) in c1[|c0|..]
    requires AllPolled(c1[|c0|..], pending, grace) && forall p | p in inspected :: p in pending
    requires outcomes == exited + inspected && forall p | p in inspected :: !inspected[p].Exited?
    requires forall p | p in exited :: exited[p].Exited?
    ensures forall p | p in outcomes && outcomes[p].Exited? :: Poll(p, true) in c2[|c0|..]
    ensures forall p | p in outcomes && !outcomes[p].Exited? :: multiset(c2[|c0|..])[Poll(p, false)] >= grace
  {
    assert c2[|c0|..] == c1[|c0|..] + c2[|c1|..];
    assert multiset(c2[|c0|..]) == multiset(c1[|c0|..]) + multiset(c2[|c1|..]);
  }

  /** Stop the children that outlive the grace period, in ascending order of their pids.  Every child is
      accounted for, and the stop counts as verified exactly when none is blocked. */
  method StopVerifiedSidebarChildren(os: Os, children: seq<Row>, ours: string -> bool, grace: nat, rounds: nat)
    returns (r: SidebarStop, byPid: map<int, Row>, ghost outcomes: map<int, Outcome>, ghost stopped: seq<Proc>)
    requires os.Valid()
    modifies os
    ensures os.Valid() && Later(old(Seen(os)), Seen(os)) && os.killed == old(os.killed) + stopped
    ensures byPid.Keys == (set c | c in children && c.pid > 0 :: c.pid) && outcomes.Keys == byPid.Keys
    ensures forall p | p in byPid :: byPid[p] in children && byPid[p].pid == p
    ensures AllJustified(Seen(os), old(os.born), byPid, ours, outcomes) && Accounts(r.report, outcomes)
    ensures AllTold(stopped, outcomes) && (r.verified <==> r.report.blocked == []) && old(os.calls) <= os.calls
    ensures forall p | p in outcomes && outcomes[p].Exited? :: Poll(p, true) in os.calls[|old(os.calls)|..]
    ensures forall p | p in outcomes && !outcomes[p].Exited? ::
              multiset(os.calls[|old(os.calls)|..])[Poll(p, false)] >= grace
    ensures r.verified ==> forall p | p in byPid :: Settled(Seen(os), old(os.born), byPid, ours, p)
    ensures AllDeserved(stopped, os.witnessed, os.self, byPid, ours)
    ensures forall j, k | 0 <= j < k < |stopped| :: stopped[j].pid < stopped[k].pid
    ensures ReportAscends(r.report)
  {
    ghost var start := Seen(os);
    var pids;
    byPid, pids := IndexByPid(children);
    var pending;
    ghost var exited;
    pending, exited := AwaitExits(os, pids, byPid, ours, grace);
    ghost var w, waited := Seen(os), os.calls;
    var order := SortPids(pending, byPid.Keys - exited.Keys);
    forall k | 0 <= k < |order| ensures order[k] in byPid && order[k] > 0 { assert order[k] in order; }
    var report;
    ghost var inspected, at, outs;
    report, inspected, stopped, at, outs := StopAll(os, order, byPid, ours, true, rounds);
    assert order[..|order|] == order;
    LaterTransitive(start, w, Seen(os));
    outcomes := exited + inspected;
    AccountsWithExited(report, exited, inspected);
    JustifiedWithExited(w, Seen(os), start.born, byPid, ours, exited, inspected);
    ToldWithExited(stopped, exited, inspected);
    StoppedAscending(stopped, order, at);
    forall p | p in inspected ensures p in pending { assert p in order; }
    PollsKept(old(os.calls), waited, os.calls, exited, inspected, outcomes, pending, grace);
    SidebarReportOrdered(report, order, outs);
    r := SidebarStop(report.blocked == [], report);
    if r.verified { VerifiedMeansSettled(report, outcomes, Seen(os), start.born, byPid, ours); }
  }
}
