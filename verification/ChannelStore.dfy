/** The channel store as several crash-prone actors see it.

  The registry table is the authority; `channel.json` and the index are readable projections.
  Every atomic write is one step.  Between two steps any other actor may run, and an actor may
  die anywhere, which frees its lock.  A reader fetches its row before it takes the lock, so the
  row it acts on may belong to a channel that has been deleted meanwhile.
 */
module ChannelStore {
  import opened Wrappers
  import opened ChannelRows

  type Actor = nat

  /** Where an actor stands.  All states but `Idle` and `Stale` are inside the store lock. */
  datatype Pc =
    | Idle
    | Stale(id: ChannelId)                       // read before the lock; about to lock and re-read
    | Upsert(id: ChannelId, row: Row)            // about to write the registry row
    | WriteFile(id: ChannelId, row: Row)
    | WriteIndex(id: ChannelId, row: Row)
    | RestoreFile(id: ChannelId, row: Row)       // about to write channel.json if it is missing
    | RestoreIndex(id: ChannelId, row: Row)
    | RemoveDir(id: ChannelId)
    | RemoveFromIndex(id: ChannelId)
    | RemoveRow(id: ChannelId)

  /** The three stores.  `committed` records every registry write ever made, `crashed` whether an
      actor ever died. */
  datatype Memory = Memory(
    registry: map<ChannelId, Row>,
    files: map<ChannelId, Row>,
    index: map<ChannelId, Row>,
    committed: set<(ChannelId, Row)>,
    crashed: bool)

  datatype Store = Store(mem: Memory, lock: Option<Actor>, pcs: map<Actor, Pc>)

  datatype Action =
    | Ensure(actor: Actor, id: ChannelId, given: Contribution)
    | Ask(actor: Actor, id: ChannelId, usable: set<KeyRef>)
    | Read(actor: Actor, id: ChannelId)
    | Delete(actor: Actor, id: ChannelId)
    | Continue(actor: Actor)
    | Crash(actor: Actor)

  function PcOf(s: Store, a: Actor): Pc {
    if a in s.pcs then s.pcs[a] else Idle
  }

  predicate InLock(pc: Pc) {
    !pc.Idle? && !pc.Stale?
  }

  function Lookup(m: map<ChannelId, Row>, id: ChannelId): Option<Row> {
    if id in m then Some(m[id]) else None
  }

  /** The atomic write an actor inside the lock makes next. */
  function Write(m: Memory, pc: Pc): Memory {
    match pc
    case Idle => m
    case Stale(_) => m
    case Upsert(id, row) => m.(registry := m.registry[id := row], committed := m.committed + {(id, row)})
    case WriteFile(id, row) => m.(files := m.files[id := row])
    case WriteIndex(id, row) => m.(index := m.index[id := row])
    case RestoreFile(id, row) => if id in m.files then m else m.(files := m.files[id := row])
    case RestoreIndex(id, row) => if id in m.index then m else m.(index := m.index[id := row])
    case RemoveDir(id) => m.(files := m.files - {id})
    case RemoveFromIndex(id) => m.(index := m.index - {id})
    case RemoveRow(id) => m.(registry := m.registry - {id})
  }

  /** Where it stands afterwards; the last write of an operation is followed by the release. */
  function NextPc(pc: Pc): Pc {
    match pc
    case Upsert(id, row) => WriteFile(id, row)
    case WriteFile(id, row) => WriteIndex(id, row)
    case RestoreFile(id, row) => RestoreIndex(id, row)
    case RemoveDir(id) => RemoveFromIndex(id)
    case RemoveFromIndex(id) => RemoveRow(id)
    case _ => Idle
  }

  /** The first state inside the lock of an operation that locks before it reads. */
  function Start(m: Memory, act: Action): Pc {
    match act
    case Ensure(_, id, given) => Upsert(id, EnsuredRow(Lookup(m.registry, id), given))
    case Ask(_, id, usable) =>
      if id in m.registry && Request(m.registry[id], usable).Some?
      then Upsert(id, Request(m.registry[id], usable).value.row) else Idle
    case Delete(_, id) => if id in m.registry then RemoveDir(id) else Idle
    case _ => Idle
  }

  /** A reader that gets the lock reads again: it restores the current row or gives up. */
  function Reread(m: Memory, id: ChannelId): Pc {
    if id in m.registry then RestoreFile(id, m.registry[id]) else Idle
  }

  /** Move an actor; states inside the lock hold it, leaving them frees it. */
  function Move(s: Store, m: Memory, a: Actor, pc: Pc): Store {
    Store(m, if InLock(pc) then Some(a) else if s.lock == Some(a) then None else s.lock, s.pcs[a := pc])
  }

  /** One atomic step.  An action that is not possible now leaves the store unchanged. */
  function Step(s: Store, act: Action): Store {
    var a, pc := act.actor, PcOf(s, act.actor);
    match act
    case Crash(_) => Move(s, s.mem.(crashed := true), a, Idle)
    case Read(_, id) => if pc.Idle? && id in s.mem.registry then Move(s, s.mem, a, Stale(id)) else s
    case Continue(_) =>
      if InLock(pc) then Move(s, Write(s.mem, pc), a, NextPc(pc))
      else if pc.Stale? && s.lock.None? then Move(s, s.mem, a, Reread(s.mem, pc.id))
      else s
    case _ => if pc.Idle? && s.lock.None? then Move(s, s.mem, a, Start(s.mem, act)) else s
  }

  function Run(s: Store, acts: seq<Action>): Store {
    if acts == [] then s else Step(Run(s, acts[..|acts| - 1]), acts[|acts| - 1])
  }

  const EMPTY := Store(Memory(map[], map[], map[], {}, false), None, map[])

  // ---------------------------------------------------------------- invariant

  /** What an actor inside the lock may rely on at each of its steps. */
  ghost predicate Consistent(m: Memory, pc: Pc) {
    match pc
    case Idle => true
    case Stale(_) => true
    case Upsert(_, row) => NoBlank(row.refs) && Unique(row.refs)
    case WriteFile(id, row) => id in m.registry && m.registry[id] == row
    case WriteIndex(id, row) => id in m.registry && m.registry[id] == row && id in m.files && m.files[id] == row
    case RestoreFile(id, row) => id in m.registry && m.registry[id] == row
    case RestoreIndex(id, row) => id in m.registry && m.registry[id] == row && id in m.files
    case RemoveDir(id) => id in m.registry
    case RemoveFromIndex(id) => id in m.registry && id !in m.files
    case RemoveRow(id) => id in m.registry && id !in m.files && id !in m.index
  }

  /** A projection implies authority, and the actor inside the lock can rely on its step. */
  ghost predicate Backed(m: Memory, pc: Pc) {
    m.files.Keys <= m.registry.Keys && m.index.Keys <= m.registry.Keys && Consistent(m, pc)
  }

  ghost predicate AllCommitted(m: map<ChannelId, Row>, committed: set<(ChannelId, Row)>) {
    forall id | id in m :: (id, m[id]) in committed
  }

  /** Projections only ever show committed rows, and no committed row repeats a ref or holds a blank one. */
  ghost predicate Honest(m: Memory) {
    (forall p | p in m.committed :: NoBlank(p.1.refs) && Unique(p.1.refs))
    && AllCommitted(m.registry, m.committed) && AllCommitted(m.files, m.committed) && AllCommitted(m.index, m.committed)
  }

  /** The channel an actor is writing, if any. */
  function Working(pc: Pc): Option<ChannelId> {
    match pc case Idle => None case Stale(_) => None case _ => Some(pc.id)
  }

  ghost predicate SameAt(m: Memory, id: ChannelId) {
    Lookup(m.files, id) == Lookup(m.registry, id) == Lookup(m.index, id)
  }

  /** Until somebody crashes, both projections equal the authority except on the channel being
      written, and there too before the first write and while restoring. */
  ghost predicate Mirrored(m: Memory, pc: Pc) {
    !m.crashed ==>
      && (forall id | Working(pc) != Some(id) :: SameAt(m, id))
      && (pc.Upsert? || pc.RestoreFile? || pc.RestoreIndex? ==> SameAt(m, pc.id))
  }

  /** Exactly the actor inside the lock holds it. */
  ghost predicate Exclusive(s: Store) {
    forall a: Actor :: InLock(PcOf(s, a)) <==> s.lock == Some(a)
  }

  /** The state of the actor inside the lock. */
  function Holder(s: Store): Pc {
    if s.lock.Some? then PcOf(s, s.lock.value) else Idle
  }

  ghost predicate Inv(s: Store) {
    Exclusive(s) && Backed(s.mem, Holder(s)) && Honest(s.mem) && Mirrored(s.mem, Holder(s))
  }

  lemma WriteBacked(m: Memory, pc: Pc)
    requires Backed(m, pc)
    ensures Backed(Write(m, pc), NextPc(pc))
  {
  }

  lemma WriteHonest(m: Memory, pc: Pc)
    requires Honest(m) && Backed(m, pc)
    ensures Honest(Write(m, pc))
  {
  }

  lemma WriteMirrored(m: Memory, pc: Pc)
    requires Backed(m, pc) && Mirrored(m, pc) && InLock(pc)
    ensures Mirrored(Write(m, pc), NextPc(pc))
  {
    var m', pc' := Write(m, pc), NextPc(pc);
    if !m.crashed {
      assert forall id | id != pc.id :: SameAt(m, id) ==> SameAt(m', id);
      if pc.WriteIndex? || pc.RemoveRow? { assert SameAt(m', pc.id); }
    }
  }

  lemma MoveExclusive(s: Store, m: Memory, a: Actor, pc: Pc)
    requires Exclusive(s) && (InLock(pc) ==> s.lock.None? || s.lock == Some(a))
    ensures Exclusive(Move(s, m, a, pc))
    ensures Holder(Move(s, m, a, pc)) == if InLock(pc) then pc else if s.lock == Some(a) then Idle else Holder(s)
  {
    var t := Move(s, m, a, pc);
    assert forall b: Actor | b != a :: PcOf(t, b) == PcOf(s, b);
  }

  /** An operation starts with a row whose refs are sound. */
  lemma StartConsistent(m: Memory, act: Action)
    requires Honest(m)
    ensures Consistent(m, Start(m, act))
  {
    if act.Ensure? {
      RefsAreSticky(Row([], 0, 0, ""), act.given);
      if act.id in m.registry {
        assert (act.id, m.registry[act.id]) in m.committed;
        RefsAreSticky(m.registry[act.id], act.given);
      }
    } else if act.Ask? && act.id in m.registry {
      assert (act.id, m.registry[act.id]) in m.committed;
    }
  }

  /** Outside of a write, memory stands still; only who is working changes. */
  lemma NewWorker(m: Memory, before: Pc, pc: Pc)
    requires Backed(m, before) && Mirrored(m, before) && !InLock(before) && Consistent(m, pc)
    ensures Backed(m, pc) && Mirrored(m, pc)
  {
    if !m.crashed { assert forall id :: SameAt(m, id); }
  }

  lemma StepKeepsInv(s: Store, act: Action)
    requires Inv(s)
    ensures Inv(Step(s, act))
  {
    var a, pc := act.actor, PcOf(s, act.actor);
    assert InLock(pc) <==> s.lock == Some(a);
    match act
    case Crash(_) => MoveExclusive(s, s.mem.(crashed := true), a, Idle);
    case Read(_, id) => MoveExclusive(s, s.mem, a, Stale(id));
    case Continue(_) =>
      if InLock(pc) {
        MoveExclusive(s, Write(s.mem, pc), a, NextPc(pc));
        WriteBacked(s.mem, pc);
        WriteHonest(s.mem, pc);
        WriteMirrored(s.mem, pc);
      } else if pc.Stale? && s.lock.None? {
        MoveExclusive(s, s.mem, a, Reread(s.mem, pc.id));
        NewWorker(s.mem, Idle, Reread(s.mem, pc.id));
      }
    case _ =>
      if pc.Idle? && s.lock.None? {
        MoveExclusive(s, s.mem, a, Start(s.mem, act));
        StartConsistent(s.mem, act);
        NewWorker(s.mem, Idle, Start(s.mem, act));
      }
  }

  /** At every atomic step of every interleaving, with crashes anywhere: a channel file or index row
      implies a registry row, and shows only rows that were really committed for that channel. */
  lemma {:induction false} AlwaysInv(acts: seq<Action>)
    ensures Inv(Run(EMPTY, acts))
  {
    if acts == [] {
      assert forall a: Actor :: PcOf(EMPTY, a) == Idle;
    } else {
      AlwaysInv(acts[..|acts| - 1]);
      StepKeepsInv(Run(EMPTY, acts[..|acts| - 1]), acts[|acts| - 1]);
    }
  }

  /** Fairness in every store that is ever reached: whatever ensures, requests, deletes and crashes came
      before, each of the k usable refs of a row comes up floor(n/k) or ceil(n/k) times in the next n requests. */
  lemma FairInEveryRun(acts: seq<Action>, id: ChannelId, usable: set<KeyRef>, n: nat, ref: KeyRef)
    requires id in Run(EMPTY, acts).mem.registry
    requires ref in Run(EMPTY, acts).mem.registry[id].refs && ref in usable
    ensures var r := Run(EMPTY, acts).mem.registry[id]; var k := |Available(r.refs, usable)|;
            k > 0 && n / k <= TimesIssued(r, usable, n, ref) <= (n + k - 1) / k
  {
    AlwaysInv(acts);
    FairWhenHonest(Run(EMPTY, acts).mem, id, usable, n, ref);
  }

  lemma FairWhenHonest(m: Memory, id: ChannelId, usable: set<KeyRef>, n: nat, ref: KeyRef)
    requires Honest(m) && id in m.registry && ref in m.registry[id].refs && ref in usable
    ensures var r := m.registry[id]; var k := |Available(r.refs, usable)|;
            k > 0 && n / k <= TimesIssued(r, usable, n, ref) <= (n + k - 1) / k
  {
    assert (id, m.registry[id]) in m.committed;
    RotationIsFair(m.registry[id], usable, n, ref);
  }

  /** With the lock free and no crash so far, both projections equal the authority. */
  lemma QuietStoreIsMirrored(acts: seq<Action>)
    requires Run(EMPTY, acts).lock.None? && !Run(EMPTY, acts).mem.crashed
    ensures var m := Run(EMPTY, acts).mem; m.files == m.registry == m.index
  {
    AlwaysInv(acts);
    var m := Run(EMPTY, acts).mem;
    forall id ensures SameAt(m, id) { assert Working(Idle) != Some(id); }
    forall id ensures id in m.registry <==> id in m.files { assert SameAt(m, id); }
    forall id ensures id in m.registry <==> id in m.index { assert SameAt(m, id); }
    forall id | id in m.registry ensures m.registry[id] == m.files[id] == m.index[id] { assert SameAt(m, id); }
  }

  // ---------------------------------------------------------------- no resurrection

  /** The channel is gone and nobody is about to create it. */
  ghost predicate Gone(s: Store, id: ChannelId) {
    id !in s.mem.registry && !(Holder(s).Upsert? && Holder(s).id == id)
  }

  predicate Creates(act: Action, id: ChannelId) {
    act.Ensure? && act.id == id
  }

  lemma GoneStep(s: Store, act: Action, id: ChannelId)
    requires Inv(s) && Gone(s, id) && !Creates(act, id)
    ensures Gone(Step(s, act), id)
  {
    var a, pc := act.actor, PcOf(s, act.actor);
    assert InLock(pc) <==> s.lock == Some(a);
    match act
    case Crash(_) => MoveExclusive(s, s.mem.(crashed := true), a, Idle);
    case Read(_, other) => MoveExclusive(s, s.mem, a, Stale(other));
    case Continue(_) =>
      if InLock(pc) { MoveExclusive(s, Write(s.mem, pc), a, NextPc(pc)); }
      else if pc.Stale? && s.lock.None? { MoveExclusive(s, s.mem, a, Reread(s.mem, pc.id)); }
    case _ =>
      if pc.Idle? && s.lock.None? { MoveExclusive(s, s.mem, a, Start(s.mem, act)); }
  }

  /** A deleted channel stays deleted, in the registry and in both projections, whatever stale readers,
      key requests, deletes and crashes follow, until somebody ensures it again. */
  lemma {:induction false} NoResurrection(before: seq<Action>, after: seq<Action>, id: ChannelId)
    requires Gone(Run(EMPTY, before), id) && forall i | 0 <= i < |after| :: !Creates(after[i], id)
    ensures var s := Run(Run(EMPTY, before), after);
            Inv(s) && Gone(s, id) && id !in s.mem.registry && id !in s.mem.files && id !in s.mem.index
  {
    if after == [] {
      AlwaysInv(before);
    } else {
      var init := after[..|after| - 1];
      assert forall i | 0 <= i < |init| :: init[i] == after[i];
      NoResurrection(before, init, id);
      var s := Run(Run(EMPTY, before), init);
      StepKeepsInv(s, after[|after| - 1]);
      GoneStep(s, after[|after| - 1], id);
    }
  }

  /** A read that completes leaves both projections of its channel in place, next to its row; a stale
      read that finds the row deleted writes nothing. */
  lemma CompletedReadRestores(s: Store, a: Actor)
    requires Inv(s)
    ensures PcOf(s, a).RestoreIndex? ==>
              var t, id := Step(s, Continue(a)), PcOf(s, a).id;
              PcOf(t, a).Idle? && t.lock.None? && id in t.mem.registry && id in t.mem.files && id in t.mem.index
    ensures PcOf(s, a).Stale? && s.lock.None? && PcOf(s, a).id !in s.mem.registry ==>
              PcOf(Step(s, Continue(a)), a).Idle? && Step(s, Continue(a)).mem == s.mem
  {
    assert InLock(PcOf(s, a)) <==> s.lock == Some(a);
  }
}
