/**
 Spool assignments under concurrent AMS callbacks: the unlocked unlink block of `on_ams_change`, the
 per-printer lock, and the locked block that inserts assignments. A state is the committed table, the
 lock registry and the callbacks in flight; a step is what one callback does between two awaits.
 */
module AmsAssignment {

  /** What the unique constraint of the table speaks about. */
  datatype Slot = Slot(printer: nat, ams: int, tray: int)

  type Rows = map<nat, Slot>

  /**
   Where a callback stands. `AtLock` has fetched the lock object; `Locked`, `Checked`, `Inserted` and
   `Leaving` are inside `async with lock`; in `Checked` the slot was found empty; in `Leaving` the
   session has ended by commit or rollback.
   */
  datatype Pc =
    | Unlinking
    | BeforeLock
    | AtLock(lock: nat)
    | Locked(lock: nat)
    | Checked(lock: nat, slot: Slot)
    | Inserted(lock: nat)
    | Leaving(lock: nat)
    | Done

  /** A callback with its uncommitted inserts and deletes; `found` are the rows its unlink block has read. */
  datatype Task = Task(printer: nat, pc: Pc, inserted: Rows, deleted: set<nat>, found: set<nat>)

  datatype State = State(
    table: Rows,
    nextId: nat,
    locks: map<nat, nat>,
    nextLock: nat,
    holder: map<nat, nat>,
    tasks: map<nat, Task>)

  ghost predicate Init(s: State) {
    && s.holder == map[] && s.locks == map[] && s.tasks == map[]
    && Unique(s.table) && (forall id | id in s.table :: id < s.nextId)
  }

  ghost predicate Unique(rows: Rows) {
    forall i, j | i in rows && j in rows && rows[i] == rows[j] :: i == j
  }

  // ---------------------------------------------------------------- steps

  function With(s: State, t: nat, task: Task): State {
    s.(tasks := s.tasks[t := task])
  }

  /** What task `t` reads: the committed rows it has not deleted, and its own inserts. */
  function Visible(s: State, task: Task): Rows {
    (s.table - task.deleted) + task.inserted
  }

  predicate Occupied(rows: Rows, slot: Slot) {
    exists id | id in rows :: rows[id] == slot
  }

  /** The constraint an insert into `slot` is checked against: committed rows and the others' inserts. */
  ghost predicate Conflicts(s: State, t: nat, slot: Slot)
    requires t in s.tasks
  {
    || Occupied(s.table - s.tasks[t].deleted, slot)
    || Occupied(s.tasks[t].inserted, slot)
    || exists u | u in s.tasks && u != t :: Occupied(s.tasks[u].inserted, slot)
  }

  ghost predicate Begin(s: State, s': State, t: nat, printer: nat) {
    t !in s.tasks && s' == With(s, t, Task(printer, Unlinking, map[], {}, {}))
  }

  /** The unlink block selects the assignments of its printer. */
  ghost predicate UnlinkRead(s: State, s': State, t: nat) {
    && t in s.tasks && s.tasks[t].pc.Unlinking?
    && var rows := set id | id in s.table && s.table[id].printer == s.tasks[t].printer;
       s' == With(s, t, s.tasks[t].(found := s.tasks[t].found + rows))
  }

  /** It deletes some of the rows it has read, which may be gone by now. */
  ghost predicate UnlinkDelete(s: State, s': State, t: nat, ids: set<nat>) {
    && t in s.tasks && s.tasks[t].pc.Unlinking? && ids <= s.tasks[t].found
    && s' == With(s, t, s.tasks[t].(deleted := s.tasks[t].deleted + ids))
  }

  ghost predicate UnlinkCommit(s: State, s': State, t: nat) {
    && t in s.tasks && s.tasks[t].pc.Unlinking?
    && s' == With(s, t, s.tasks[t].(pc := BeforeLock, deleted := {})).(table := s.table - s.tasks[t].deleted)
  }

  ghost predicate UnlinkFail(s: State, s': State, t: nat) {
    && t in s.tasks && s.tasks[t].pc.Unlinking?
    && s' == With(s, t, s.tasks[t].(pc := BeforeLock, deleted := {}))
  }

  /** `_get_ams_assignment_lock`: the printer's lock, created on first use. */
  ghost predicate FetchLock(s: State, s': State, t: nat) {
    && t in s.tasks && s.tasks[t].pc.BeforeLock?
    && var printer := s.tasks[t].printer;
       if printer in s.locks then s' == With(s, t, s.tasks[t].(pc := AtLock(s.locks[printer])))
       else s' == With(s, t, s.tasks[t].(pc := AtLock(s.nextLock)))
                  .(locks := s.locks[printer := s.nextLock], nextLock := s.nextLock + 1)
  }

  ghost predicate EnterBlock(s: State, s': State, t: nat) {
    && t in s.tasks && s.tasks[t].pc.AtLock?
    && var lock := s.tasks[t].pc.lock;
       s' == With(s, t, s.tasks[t].(pc := Locked(lock))).(holder := s.holder[lock := t])
  }

  ghost predicate Acquire(s: State, s': State, t: nat) {
    EnterBlock(s, s', t) && s.tasks[t].pc.lock !in s.holder
  }

  /** The select for one slot of this printer finds no assignment. */
  ghost predicate CheckSlot(s: State, s': State, t: nat, slot: Slot) {
    && t in s.tasks && s.tasks[t].pc.Locked? && slot.printer == s.tasks[t].printer
    && !Occupied(Visible(s, s.tasks[t]), slot)
    && s' == With(s, t, s.tasks[t].(pc := Checked(s.tasks[t].pc.lock, slot)))
  }

  /** `auto_assign_spool`: delete what occupies the slot now, then insert and flush. */
  ghost predicate Insert(s: State, s': State, t: nat) {
    && t in s.tasks && s.tasks[t].pc.Checked?
    && var task := s.tasks[t];
       var slot := task.pc.slot;
       var former := set id | id in Visible(s, task) && Visible(s, task)[id] == slot;
       s' == With(s, t, task.(pc := Inserted(task.pc.lock),
                              deleted := task.deleted + former,
                              inserted := task.inserted[s.nextId := slot])).(nextId := s.nextId + 1)
  }

  ghost predicate Commit(s: State, s': State, t: nat) {
    && t in s.tasks && s.tasks[t].pc.Inserted?
    && s' == With(s, t, s.tasks[t].(pc := Locked(s.tasks[t].pc.lock), inserted := map[], deleted := {}))
             .(table := Visible(s, s.tasks[t]))
  }

  predicate InBlock(pc: Pc) {
    pc.Locked? || pc.Checked? || pc.Inserted?
  }

  /** The block ends, with the loop done or with an exception: what is not committed is rolled back. */
  ghost predicate EndSession(s: State, s': State, t: nat) {
    && t in s.tasks && InBlock(s.tasks[t].pc)
    && s' == With(s, t, s.tasks[t].(pc := Leaving(s.tasks[t].pc.lock), inserted := map[], deleted := {}))
  }

  ghost predicate Release(s: State, s': State, t: nat) {
    && t in s.tasks && s.tasks[t].pc.Leaving?
    && s' == With(s, t, s.tasks[t].(pc := Done)).(holder := s.holder - {s.tasks[t].pc.lock})
  }

  ghost predicate ChecksSlot(s: State, s': State, t: nat) {
    exists slot :: CheckSlot(s, s', t, slot)
  }

  ghost predicate StepBy(s: State, s': State, t: nat) {
    || (exists printer :: Begin(s, s', t, printer))
    || UnlinkRead(s, s', t)
    || (exists ids :: UnlinkDelete(s, s', t, ids))
    || UnlinkCommit(s, s', t)
    || UnlinkFail(s, s', t)
    || FetchLock(s, s', t)
    || Acquire(s, s', t)
    || ChecksSlot(s, s', t)
    || Insert(s, s', t)
    || Commit(s, s', t)
    || EndSession(s, s', t)
    || Release(s, s', t)
  }

  ghost predicate Next(s: State, s': State) {
    exists t :: StepBy(s, s', t)
  }

  /** Any interleaving of any number of callbacks. */
  ghost predicate IsRun(run: seq<State>) {
    && run != [] && Init(run[0])
    && forall i | 0 <= i < |run| - 1 :: Next(run[i], run[i + 1])
  }

  // ---------------------------------------------------------------- the invariant

  predicate HasLock(pc: Pc) {
    InBlock(pc) || pc.Leaving?
  }

  ghost predicate TaskOk(s: State, t: nat, task: Task) {
    && (task.pc.AtLock? || HasLock(task.pc) ==>
          task.printer in s.locks && s.locks[task.printer] == task.pc.lock)
    && (HasLock(task.pc) ==> task.pc.lock in s.holder && s.holder[task.pc.lock] == t)
    && (!task.pc.Inserted? ==> task.inserted == map[])
    && (!task.pc.Unlinking? ==> task.deleted == {})
    && (forall id | id in task.inserted ::
          && id < s.nextId && id !in s.table
          && task.inserted[id].printer == task.printer
          && !Occupied(s.table, task.inserted[id]))
    && (forall id, id' | id in task.inserted && id' in task.inserted :: id == id')
    && (task.pc.Checked? ==> task.pc.slot.printer == task.printer && !Occupied(s.table, task.pc.slot))
  }

  ghost predicate Inv(s: State) {
    && Unique(s.table)
    && (forall id | id in s.table :: id < s.nextId)
    && (forall p | p in s.locks :: s.locks[p] < s.nextLock)
    && (forall p, q | p in s.locks && q in s.locks && s.locks[p] == s.locks[q] :: p == q)
    && (forall t | t in s.tasks :: TaskOk(s, t, s.tasks[t]))
    && (forall t, u | t in s.tasks && u in s.tasks && t != u :: s.tasks[t].inserted.Keys !! s.tasks[u].inserted.Keys)
  }

  // ---------------------------------------------------------------- every step keeps it

  /** Two callbacks of one printer are never inside the block together. */
  lemma LockExcludes(s: State, t: nat, u: nat)
    requires Inv(s) && t in s.tasks && u in s.tasks && t != u
    requires HasLock(s.tasks[t].pc) && HasLock(s.tasks[u].pc)
    ensures s.tasks[t].printer != s.tasks[u].printer
  {
    assert TaskOk(s, t, s.tasks[t]) && TaskOk(s, u, s.tasks[u]);
  }

  /** A step of `t` that leaves table, locks and holders alone only has to answer for `t`. */
  lemma LocalStep(s: State, s': State, t: nat)
    requires Inv(s)
    requires s'.table == s.table && s'.locks == s.locks && s'.holder == s.holder
    requires s'.nextId >= s.nextId && s'.nextLock == s.nextLock
    requires t in s'.tasks && s'.tasks == s.tasks[t := s'.tasks[t]]
    requires TaskOk(s', t, s'.tasks[t])
    requires forall id | id in s'.tasks[t].inserted :: id >= s.nextId || (t in s.tasks && id in s.tasks[t].inserted)
    ensures Inv(s')
  {
    forall u | u in s'.tasks && u != t ensures s'.tasks[t].inserted.Keys !! s'.tasks[u].inserted.Keys {
      assert TaskOk(s, u, s.tasks[u]);
    }
    forall u | u in s'.tasks ensures TaskOk(s', u, s'.tasks[u]) {
      if u != t {
        assert TaskOk(s, u, s.tasks[u]);
      }
    }
  }

  lemma DeletingKeepsInv(s: State, s': State, t: nat)
    requires Inv(s) && UnlinkCommit(s, s', t)
    ensures Inv(s')
  {
    forall u | u in s'.tasks ensures TaskOk(s', u, s'.tasks[u]) {
      assert TaskOk(s, u, s.tasks[u]);
    }
  }

  lemma MoreLocks(s: State, s': State, u: nat, task: Task)
    requires TaskOk(s, u, task)
    requires s'.table == s.table && s'.holder == s.holder && s'.nextId == s.nextId
    requires forall p | p in s.locks :: p in s'.locks && s'.locks[p] == s.locks[p]
    ensures TaskOk(s', u, task)
  {}

  lemma FetchKeepsInv(s: State, s': State, t: nat)
    requires Inv(s) && FetchLock(s, s', t)
    ensures Inv(s')
  {
    var printer := s.tasks[t].printer;
    assert TaskOk(s, t, s.tasks[t]);
    if printer in s.locks {
      LocalStep(s, s', t);
    } else {
      var grown := s.(locks := s'.locks, nextLock := s'.nextLock);
      NewLockKeepsInv(s, grown, printer);
      LocalStep(grown, s', t);
    }
  }

  lemma NewLockKeepsInv(s: State, grown: State, printer: nat)
    requires Inv(s) && printer !in s.locks
    requires grown == s.(locks := s.locks[printer := s.nextLock], nextLock := s.nextLock + 1)
    ensures Inv(grown)
  {
    hide TaskOk, Unique;
    forall u | u in s.tasks ensures TaskOk(grown, u, s.tasks[u]) {
      MoreLocks(s, grown, u, s.tasks[u]);
    }
  }

  lemma AcquireKeepsInv(s: State, s': State, t: nat)
    requires Inv(s) && Acquire(s, s', t)
    ensures Inv(s')
  {
    forall u | u in s'.tasks ensures TaskOk(s', u, s'.tasks[u]) {
      assert TaskOk(s, u, s.tasks[u]);
    }
  }

  lemma InsertKeepsInv(s: State, s': State, t: nat)
    requires Inv(s) && Insert(s, s', t)
    ensures Inv(s')
  {
    var task := s.tasks[t];
    assert TaskOk(s, t, task);
    assert (set id | id in Visible(s, task) && Visible(s, task)[id] == task.pc.slot) == {};
    LocalStep(s, s', t);
  }

  lemma CommitKeepsInv(s: State, s': State, t: nat)
    requires Inv(s) && Commit(s, s', t)
    ensures Inv(s')
  {
    CommitKeepsTable(s, s', t);
    hide TaskOk, Unique;
    forall u | u in s'.tasks ensures TaskOk(s', u, s'.tasks[u]) {
      if u != t {
        CommitLeavesOthers(s, s', t, u);
      }
    }
  }

  /** The rows inserted become part of the table, and the task that inserted them has none left. */
  lemma CommitKeepsTable(s: State, s': State, t: nat)
    requires Inv(s) && Commit(s, s', t)
    ensures s'.table == s.table + s.tasks[t].inserted && Unique(s'.table)
    ensures TaskOk(s', t, s'.tasks[t])
    ensures forall id | id in s'.table :: id < s'.nextId
  {
    assert TaskOk(s, t, s.tasks[t]);
  }

  lemma CommitLeavesOthers(s: State, s': State, t: nat, u: nat)
    requires Inv(s) && Commit(s, s', t) && u in s.tasks && u != t
    ensures TaskOk(s', u, s'.tasks[u])
  {
    var task, other := s.tasks[t], s.tasks[u];
    assert TaskOk(s, t, task) && TaskOk(s, u, other);
    assert s'.table == s.table + task.inserted;
    if HasLock(other.pc) {
      LockExcludes(s, t, u);
      forall slot: Slot | slot.printer == other.printer && !Occupied(s.table, slot) ensures !Occupied(s'.table, slot) {}
    }
  }

  lemma ReleaseKeepsInv(s: State, s': State, t: nat)
    requires Inv(s) && Release(s, s', t)
    ensures Inv(s')
  {
    assert TaskOk(s, t, s.tasks[t]);
    forall u | u in s'.tasks ensures TaskOk(s', u, s'.tasks[u]) {
      assert TaskOk(s, u, s.tasks[u]);
      if u != t && HasLock(s.tasks[u].pc) {
        LockExcludes(s, t, u);
      }
    }
  }

  lemma LocalStepsKeepInv(s: State, s': State, t: nat)
    requires Inv(s)
    requires (exists printer :: Begin(s, s', t, printer)) || UnlinkRead(s, s', t)
             || (exists ids :: UnlinkDelete(s, s', t, ids)) || UnlinkFail(s, s', t) || EndSession(s, s', t)
    ensures Inv(s')
  {
    hide Occupied;
    assert t in s.tasks ==> TaskOk(s, t, s.tasks[t]);
    assert TaskOk(s', t, s'.tasks[t]);
    hide Inv, TaskOk;
    LocalStep(s, s', t);
  }

  lemma CheckKeepsInv(s: State, s': State, t: nat, slot: Slot)
    requires Inv(s) && CheckSlot(s, s', t, slot)
    ensures Inv(s')
  {
    assert TaskOk(s, t, s.tasks[t]);
    CheckedIsFree(s, s', t, slot);
    LocalStep(s, s', t);
  }

  lemma StepKeepsInv(s: State, s': State, t: nat)
    requires Inv(s) && StepBy(s, s', t)
    ensures Inv(s')
  {
    hide Inv, UnlinkCommit, FetchLock, Acquire, Insert, Commit, Release, CheckSlot, Begin, UnlinkRead, UnlinkDelete,
      UnlinkFail, EndSession;
    if UnlinkCommit(s, s', t) {
      DeletingKeepsInv(s, s', t);
    } else if FetchLock(s, s', t) {
      FetchKeepsInv(s, s', t);
    } else if Acquire(s, s', t) {
      AcquireKeepsInv(s, s', t);
    } else if Insert(s, s', t) {
      InsertKeepsInv(s, s', t);
    } else if Commit(s, s', t) {
      CommitKeepsInv(s, s', t);
    } else if Release(s, s', t) {
      ReleaseKeepsInv(s, s', t);
    } else if ChecksSlot(s, s', t) {
      var slot :| CheckSlot(s, s', t, slot);
      CheckKeepsInv(s, s', t, slot);
    } else {
      LocalStepsKeepInv(s, s', t);
    }
  }

  lemma CheckedIsFree(s: State, s': State, t: nat, slot: Slot)
    requires Inv(s) && CheckSlot(s, s', t, slot)
    ensures !Occupied(s.table, slot)
  {
    assert TaskOk(s, t, s.tasks[t]);
    assert Visible(s, s.tasks[t]) == s.table;
  }

  // ---------------------------------------------------------------- whole runs

  lemma {:induction false} RunKeepsInv(run: seq<State>, n: nat)
    requires IsRun(run) && n < |run|
    ensures Inv(run[n])
  {
    if n > 0 {
      RunKeepsInv(run, n - 1);
      assert Next(run[n - 1], run[n]);
      var t :| StepBy(run[n - 1], run[n], t);
      StepKeepsInv(run[n - 1], run[n], t);
    }
  }

  /** The committed table never holds two assignments for one slot. */
  lemma SlotsStayUnique(run: seq<State>, n: nat)
    requires IsRun(run) && n < |run|
    ensures Unique(run[n].table)
  {
    RunKeepsInv(run, n);
  }

  /** No insert of a callback meets a row, committed or pending, in its slot. */
  lemma InsertsNeverConflict(run: seq<State>, n: nat, t: nat)
    requires IsRun(run) && n < |run|
    requires t in run[n].tasks && run[n].tasks[t].pc.Checked?
    ensures !Conflicts(run[n], t, run[n].tasks[t].pc.slot)
  {
    RunKeepsInv(run, n);
    var s := run[n];
    var slot := s.tasks[t].pc.slot;
    assert TaskOk(s, t, s.tasks[t]);
    forall u | u in s.tasks && u != t ensures !Occupied(s.tasks[u].inserted, slot) {
      assert TaskOk(s, u, s.tasks[u]);
      if HasLock(s.tasks[u].pc) {
        LockExcludes(s, t, u);
      }
    }
  }

  /**
   When a callback lets go of the lock, no other callback of its printer is inside the block, and nobody,
   itself included, has an uncommitted row for any slot of the printer.
   */
  lemma ReleasedWithNothingPending(run: seq<State>, n: nat, t: nat)
    requires IsRun(run) && n < |run| - 1 && Release(run[n], run[n + 1], t)
    ensures run[n].tasks[t].inserted == map[] && run[n].tasks[t].deleted == {}
    ensures forall u | u in run[n].tasks && u != t && HasLock(run[n].tasks[u].pc) ::
              run[n].tasks[u].printer != run[n].tasks[t].printer
    ensures forall u, id | u in run[n].tasks && id in run[n].tasks[u].inserted ::
              run[n].tasks[u].inserted[id].printer != run[n].tasks[t].printer
  {
    RunKeepsInv(run, n);
    var s := run[n];
    assert TaskOk(s, t, s.tasks[t]);
    forall u, id | u in s.tasks && id in s.tasks[u].inserted
      ensures s.tasks[u].inserted[id].printer != s.tasks[t].printer
    {
      assert TaskOk(s, u, s.tasks[u]);
      if u != t {
        LockExcludes(s, t, u);
      }
    }
    forall u | u in s.tasks && u != t && HasLock(s.tasks[u].pc) ensures s.tasks[u].printer != s.tasks[t].printer {
      LockExcludes(s, t, u);
    }
  }

  // ---------------------------------------------------------------- what the lock is for

  /** The steps of the block without waiting for the lock. */
  ghost predicate UnguardedStep(s: State, s': State) {
    exists t :: EnterBlock(s, s', t) || ChecksSlot(s, s', t) || Insert(s, s', t) || Commit(s, s', t)
  }

  /** A callback inside the block that found `slot` empty and has nothing pending. */
  ghost predicate FoundEmpty(s: State, t: nat, slot: Slot) {
    && t in s.tasks && s.tasks[t].pc.Checked? && s.tasks[t].pc.slot == slot
    && s.tasks[t].inserted == map[] && s.tasks[t].deleted == {}
  }

  ghost predicate Ready(s: State, t: nat, slot: Slot) {
    && t in s.tasks && s.tasks[t].pc.AtLock? && s.tasks[t].printer == slot.printer
    && s.tasks[t].inserted == map[] && s.tasks[t].deleted == {}
  }

  lemma BothFindEmpty(s: State, t: nat, u: nat, slot: Slot) returns (run: seq<State>)
    requires t != u && Ready(s, t, slot) && Ready(s, u, slot) && !Occupied(s.table, slot)
    ensures |run| == 5 && run[0] == s
    ensures EnterBlock(run[0], run[1], t) && EnterBlock(run[1], run[2], u)
    ensures CheckSlot(run[2], run[3], t, slot) && CheckSlot(run[3], run[4], u, slot)
    ensures FoundEmpty(run[4], t, slot) && FoundEmpty(run[4], u, slot) && run[4].table == s.table
  {
    var tl, ul := s.tasks[t].pc.lock, s.tasks[u].pc.lock;
    var a := With(s, t, s.tasks[t].(pc := Locked(tl))).(holder := s.holder[tl := t]);
    var b := With(a, u, a.tasks[u].(pc := Locked(ul))).(holder := a.holder[ul := u]);
    assert Visible(b, b.tasks[t]) == s.table && Visible(b, b.tasks[u]) == s.table;
    var c := With(b, t, b.tasks[t].(pc := Checked(tl, slot)));
    assert Visible(c, c.tasks[u]) == s.table;
    var d := With(c, u, c.tasks[u].(pc := Checked(ul, slot)));
    run := [s, a, b, c, d];
  }

  lemma SecondInsertMeetsRow(s: State, t: nat, u: nat, slot: Slot) returns (e: State, f: State)
    requires t != u && FoundEmpty(s, t, slot) && FoundEmpty(s, u, slot) && !Occupied(s.table, slot)
    ensures Insert(s, e, t) && Commit(e, f, t)
    ensures FoundEmpty(f, u, slot) && Conflicts(f, u, slot)
  {
    var was := s.tasks[t];
    var former := set id | id in Visible(s, was) && Visible(s, was)[id] == slot;
    var task := was.(pc := Inserted(was.pc.lock), deleted := was.deleted + former,
                     inserted := was.inserted[s.nextId := slot]);
    e := With(s, t, task).(nextId := s.nextId + 1);
    f := With(e, t, task.(pc := Locked(was.pc.lock), inserted := map[], deleted := {})).(table := Visible(e, task));
    assert f.table[s.nextId] == slot && s.nextId in f.table - f.tasks[u].deleted;
  }

  /**
   Two callbacks of one printer that both reach the lock with a slot free: if neither waited, both would
   find the slot empty, one would commit its row, and the other's insert would meet it.
   */
  lemma RaceWithoutLock(s: State, t: nat, u: nat, slot: Slot) returns (run: seq<State>)
    requires t != u && Ready(s, t, slot) && Ready(s, u, slot) && !Occupied(s.table, slot)
    ensures |run| == 7 && run[0] == s && forall i | 0 <= i < 6 :: UnguardedStep(run[i], run[i + 1])
    ensures FoundEmpty(run[6], u, slot) && Conflicts(run[6], u, slot)
  {
    hide EnterBlock, CheckSlot, Insert, Commit, FoundEmpty, Conflicts, Ready;
    var checks := BothFindEmpty(s, t, u, slot);
    var e, f := SecondInsertMeetsRow(checks[4], t, u, slot);
    run := checks + [e, f];
    assert UnguardedStep(run[0], run[1]) && UnguardedStep(run[1], run[2]);
    assert ChecksSlot(run[2], run[3], t) && ChecksSlot(run[3], run[4], u);
    assert UnguardedStep(run[2], run[3]) && UnguardedStep(run[3], run[4]);
    assert UnguardedStep(run[4], e) && UnguardedStep(e, f);
  }
}
