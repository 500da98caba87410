/** The channel store's operations as one undisturbed caller runs them, tied to the step machine. */
module ChannelStoreApi {
  import opened Wrappers
  import opened ChannelRows
  import opened ChannelStore

  function WritesLeft(pc: Pc): nat {
    match pc
    case Idle => 0
    case Stale(_) => 0
    case Upsert(_, _) => 3
    case WriteFile(_, _) => 2
    case WriteIndex(_, _) => 1
    case RestoreFile(_, _) => 2
    case RestoreIndex(_, _) => 1
    case RemoveDir(_) => 3
    case RemoveFromIndex(_) => 2
    case RemoveRow(_) => 1
  }

  /** All writes an operation still has to make. */
  function Finish(m: Memory, pc: Pc): Memory
    decreases WritesLeft(pc)
  {
    if InLock(pc) then Finish(Write(m, pc), NextPc(pc)) else m
  }

  /** Storing a row ends with the same row in all three places. */
  lemma FinishUpsert(m: Memory, id: ChannelId, row: Row)
    ensures Finish(m, Upsert(id, row)) ==
            Memory(m.registry[id := row], m.files[id := row], m.index[id := row], m.committed + {(id, row)}, m.crashed)
  {
    var m1 := Write(m, Upsert(id, row));
    var m2 := Write(m1, WriteFile(id, row));
    var m3 := Write(m2, WriteIndex(id, row));
    assert Finish(m2, WriteIndex(id, row)) == Finish(m3, Idle) == m3;
    assert Finish(m1, WriteFile(id, row)) == m3;
  }

  /** Restoring fills in what is missing and changes nothing else. */
  lemma FinishRestore(m: Memory, id: ChannelId, row: Row)
    ensures Finish(m, RestoreFile(id, row)) ==
            m.(files := if id in m.files then m.files else m.files[id := row],
               index := if id in m.index then m.index else m.index[id := row])
  {
    var m1 := Write(m, RestoreFile(id, row));
    var m2 := Write(m1, RestoreIndex(id, row));
    assert Finish(m1, RestoreIndex(id, row)) == Finish(m2, Idle) == m2;
  }

  /** Deleting removes the channel from all three places. */
  lemma FinishRemove(m: Memory, id: ChannelId)
    ensures Finish(m, RemoveDir(id))
            == m.(registry := m.registry - {id}, files := m.files - {id}, index := m.index - {id})
  {
    var m1 := Write(m, RemoveDir(id));
    var m2 := Write(m1, RemoveFromIndex(id));
    var m3 := Write(m2, RemoveRow(id));
    assert Finish(m2, RemoveRow(id)) == Finish(m3, Idle) == m3;
    assert Finish(m1, RemoveFromIndex(id)) == m3;
  }

  function Repeat(act: Action, n: nat): seq<Action> {
    seq(n, i => act)
  }

  /** The machine, left alone, makes exactly these writes and then releases the lock. */
  lemma {:induction false} FinishIsRun(s: Store, a: Actor)
    requires Exclusive(s) && InLock(PcOf(s, a))
    ensures var t := Run(s, Repeat(Continue(a), WritesLeft(PcOf(s, a))));
            t.mem == Finish(s.mem, PcOf(s, a)) && PcOf(t, a) == Idle && t.lock.None?
    decreases WritesLeft(PcOf(s, a))
  {
    var pc := PcOf(s, a);
    var t := Step(s, Continue(a));
    assert s.lock == Some(a);
    MoveExclusive(s, Write(s.mem, pc), a, NextPc(pc));
    assert PcOf(t, a) == NextPc(pc);
    RunFirst(s, Continue(a), Repeat(Continue(a), WritesLeft(pc) - 1));
    assert [Continue(a)] + Repeat(Continue(a), WritesLeft(pc) - 1) == Repeat(Continue(a), WritesLeft(pc));
    if InLock(NextPc(pc)) { FinishIsRun(t, a); }
  }

  lemma {:induction false} RunFirst(s: Store, first: Action, rest: seq<Action>)
    ensures Run(s, [first] + rest) == Run(Step(s, first), rest)
  {
    var all := [first] + rest;
    if rest == [] {
      assert all[..|all| - 1] == [] && Run(s, []) == s;
    } else {
      assert all[..|all| - 1] == [first] + rest[..|rest| - 1];
      RunFirst(s, first, rest[..|rest| - 1]);
    }
  }

  /** A reader that has the lock runs to its end undisturbed. */
  lemma LockedReadRestores(s: Store, a: Actor, id: ChannelId, row: Row)
    requires Inv(s) && PcOf(s, a) == RestoreFile(id, row)
    ensures var t := Run(s, Repeat(Continue(a), 2));
            && PcOf(t, a).Idle? && t.lock.None?
            && t.mem == s.mem.(files := if id in s.mem.files then s.mem.files else s.mem.files[id := row],
                               index := if id in s.mem.index then s.mem.index else s.mem.index[id := row])
  {
    FinishIsRun(s, a);
    FinishRestore(s.mem, id, row);
  }

  /** Whatever happened before, crashes included: a read that runs undisturbed puts back what is missing
      of its channel and changes nothing else. */
  lemma UndisturbedReadRestores(s: Store, a: Actor, id: ChannelId)
    requires Inv(s) && s.lock.None? && PcOf(s, a).Idle? && id in s.mem.registry
    ensures var t := Run(s, [Read(a, id)] + Repeat(Continue(a), 3)); var row := s.mem.registry[id];
            && PcOf(t, a).Idle? && t.lock.None?
            && t.mem == s.mem.(files := if id in s.mem.files then s.mem.files else s.mem.files[id := row],
                               index := if id in s.mem.index then s.mem.index else s.mem.index[id := row])
  {
    var stale := Step(s, Read(a, id));
    var locked := Step(stale, Continue(a));
    StepKeepsInv(s, Read(a, id));
    StepKeepsInv(stale, Continue(a));
    RunFirst(s, Read(a, id), Repeat(Continue(a), 3));
    assert Repeat(Continue(a), 3) == [Continue(a)] + Repeat(Continue(a), 2);
    RunFirst(stale, Continue(a), Repeat(Continue(a), 2));
    LockedReadRestores(locked, a, id, s.mem.registry[id]);
  }

  /** An actor that dies writes nothing more, frees its lock and leaves what it had written. */
  lemma CrashLeavesWhatIsWritten(s: Store, a: Actor)
    requires Exclusive(s)
    ensures var t := Step(s, Crash(a));
            && t.mem.registry == s.mem.registry && t.mem.files == s.mem.files && t.mem.index == s.mem.index
            && t.mem.crashed && PcOf(t, a).Idle? && (forall b | b != a :: PcOf(t, b) == PcOf(s, b))
            && t.lock == if s.lock == Some(a) then None else s.lock
  {
  }

  /** So a channel that is ensured can stay without its projections: the registry is written first. */
  lemma HalfWrittenIsReachable(a: Actor, id: ChannelId, given: Contribution)
    ensures var s := Run(EMPTY, [Ensure(a, id, given), Continue(a), Crash(a)]);
            && s.lock.None? && PcOf(s, a).Idle? && s.mem.crashed
            && id in s.mem.registry && id !in s.mem.files && id !in s.mem.index
            && s.mem.registry[id].refs == EnsuredRow(None, given).refs
  {
    var one, two := Step(EMPTY, Ensure(a, id, given)), [Continue(a), Crash(a)];
    assert PcOf(EMPTY, a).Idle? && PcOf(one, a) == Upsert(id, EnsuredRow(None, given));
    RunFirst(EMPTY, Ensure(a, id, given), two);
    RunFirst(one, Continue(a), [Crash(a)]);
    var written := Step(one, Continue(a));
    RunFirst(written, Crash(a), []);
    assert [Crash(a)] + [] == [Crash(a)] && [Continue(a)] + [Crash(a)] == two;
    assert [Ensure(a, id, given)] + two == [Ensure(a, id, given), Continue(a), Crash(a)];
  }

  class ConversationChannelStore {
    var registry: map<ChannelId, Row>
    var files: map<ChannelId, Row>
    var index: map<ChannelId, Row>
    ghost var committed: set<(ChannelId, Row)>

    ghost function Mem(): Memory
      reads this
    {
      Memory(registry, files, index, committed, false)
    }

    constructor ()
      ensures Mem() == EMPTY.mem
    {
      registry, files, index, committed := map[], map[], map[], {};
    }

    method Store(id: ChannelId, row: Row)
      modifies this
      ensures Mem() == Finish(old(Mem()), Upsert(id, row))
      ensures registry == old(registry)[id := row]
    {
      FinishUpsert(Mem(), id, row);
      registry := registry[id := row];
      committed := committed + {(id, row)};
      files := files[id := row];
      index := index[id := row];
    }

    method EnsureChannel(id: ChannelId, given: Contribution) returns (row: Row)
      modifies this
      ensures Mem() == Finish(old(Mem()), Start(old(Mem()), Ensure(0, id, given)))
      ensures id in registry && registry[id] == row && row == EnsuredRow(Lookup(old(registry), id), given)
      ensures Arrived(if id in old(registry) then old(registry)[id].refs else [], given.offered, given.slots, row.refs)
      ensures row.slots == given.slots && row.body == given.body
      ensures row.nextIndex == if id in old(registry) then old(registry)[id].nextIndex else 0
    {
      row := EnsuredRow(if id in registry then Some(registry[id]) else None, given);
      OfferedRefsArrive(if id in registry then Some(registry[id]) else None, given);
      Store(id, row);
    }

    method RefForRequest(id: ChannelId, usable: set<KeyRef>) returns (ref: Option<KeyRef>)
      modifies this
      ensures Mem() == Finish(old(Mem()), Start(old(Mem()), Ask(0, id, usable)))
      ensures ref.Some? <==> id in old(registry) && Available(old(registry)[id].refs, usable) != []
      ensures ref.Some? ==> ref.value == Request(old(registry)[id], usable).value.ref
    {
      if id !in registry { return None; }
      var row := registry[id];
      var available := Available(row.refs, usable);
      if available == [] { return None; }
      ref := Some(available[row.nextIndex % |available|]);
      Store(id, row.(nextIndex := (row.nextIndex + 1) % |available|));
    }

    /** Restore what is missing and return the row. */
    method GetChannel(id: ChannelId) returns (row: Option<Row>)
      modifies this
      ensures Mem() == Finish(old(Mem()), Reread(old(Mem()), id))
      ensures row == Lookup(old(registry), id)
    {
      if id !in registry { return None; }
      FinishRestore(Mem(), id, registry[id]);
      if id !in files { files := files[id := registry[id]]; }
      if id !in index { index := index[id := registry[id]]; }
      return Some(registry[id]);
    }

    method DeleteChannel(id: ChannelId) returns (deleted: bool)
      modifies this
      ensures Mem() == Finish(old(Mem()), Start(old(Mem()), Delete(0, id)))
      ensures deleted <==> id in old(registry)
      ensures id !in registry
    {
      if id !in registry { return false; }
      FinishRemove(Mem(), id);
      files := files - {id};
      index := index - {id};
      registry := registry - {id};
      deleted := true;
    }
  }
}
