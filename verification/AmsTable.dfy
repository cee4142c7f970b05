/**
 What the AMS callbacks do to the table of assignments: a committed unlink takes out exactly the rows it
 deleted, for good; a committed assignment puts its slot in; and nobody touches another printer's rows.
 */
module AmsTable {
  import opened AmsAssignment

  // ---------------------------------------------------------------- the rows an unlink block has read

  /** Rows read are old ones, nobody's uncommitted ones, and of the reader's printer; only such are deleted. */
  ghost predicate IsFound(s: State, t: nat, id: nat)
    requires t in s.tasks
  {
    && id < s.nextId && (id in s.table ==> s.table[id].printer == s.tasks[t].printer)
    && forall u | u in s.tasks :: id !in s.tasks[u].inserted
  }

  ghost predicate AreFound(s: State) {
    && (forall t, id | t in s.tasks && id in s.tasks[t].found :: IsFound(s, t, id))
    && forall t | t in s.tasks :: s.tasks[t].deleted <= s.tasks[t].found
  }

  /** Rows keep their slots; what is new in the table was pending, what is newly pending has a new number. */
  ghost predicate RowsEvolve(s: State, s': State) {
    && s'.nextId >= s.nextId
    && (forall id | id in s'.table && id in s.table :: s'.table[id] == s.table[id])
    && (forall id | id in s'.table && id !in s.table :: exists u | u in s.tasks :: id in s.tasks[u].inserted)
    && forall u, id | u in s'.tasks && id in s'.tasks[u].inserted ::
         id >= s.nextId || (u in s.tasks && id in s.tasks[u].inserted)
  }

  /** A step that changes only where `t` stands, or drops what it had pending. */
  ghost predicate IsQuiet(s: State, s': State, t: nat) {
    && s'.table == s.table && s'.nextId == s.nextId && t in s'.tasks && s'.tasks == s.tasks[t := s'.tasks[t]]
    && var task := s'.tasks[t];
       && task.deleted <= task.found
       && if t in s.tasks then
            && task.printer == s.tasks[t].printer && task.found == s.tasks[t].found
            && (task.inserted == s.tasks[t].inserted || task.inserted == map[])
          else task.inserted == map[] && task.found == {}
  }

  lemma QuietKeepsFound(s: State, s': State, t: nat)
    requires AreFound(s) && IsQuiet(s, s', t)
    ensures AreFound(s') && RowsEvolve(s, s')
  {
    forall u, id | u in s'.tasks && id in s'.tasks[u].found ensures IsFound(s', u, id) {
      assert IsFound(s, u, id);
    }
  }

  lemma ReadKeepsFound(s: State, s': State, t: nat)
    requires Inv(s) && AreFound(s) && UnlinkRead(s, s', t)
    ensures AreFound(s') && RowsEvolve(s, s')
  {
    forall u, id | u in s'.tasks && id in s'.tasks[u].found ensures IsFound(s', u, id) {
      if id in s.tasks[u].found {
        assert IsFound(s, u, id);
      } else {
        forall v | v in s.tasks ensures id !in s.tasks[v].inserted {
          assert TaskOk(s, v, s.tasks[v]);
        }
      }
    }
  }

  lemma UnlinkKeepsFound(s: State, s': State, t: nat)
    requires AreFound(s) && UnlinkCommit(s, s', t)
    ensures AreFound(s') && RowsEvolve(s, s')
  {
    forall u, id | u in s'.tasks && id in s'.tasks[u].found ensures IsFound(s', u, id) {
      assert IsFound(s, u, id);
    }
  }

  lemma InsertKeepsFound(s: State, s': State, t: nat)
    requires Inv(s) && AreFound(s) && Insert(s, s', t)
    ensures AreFound(s') && RowsEvolve(s, s')
    ensures s'.tasks[t].deleted == {} && s'.tasks[t].inserted == s.tasks[t].inserted[s.nextId := s.tasks[t].pc.slot]
  {
    var task := s.tasks[t];
    assert TaskOk(s, t, task);
    assert (set id | id in Visible(s, task) && Visible(s, task)[id] == task.pc.slot) == {};
    forall u, id | u in s'.tasks && id in s'.tasks[u].found ensures IsFound(s', u, id) {
      assert IsFound(s, u, id);
    }
  }

  lemma CommitKeepsFound(s: State, s': State, t: nat)
    requires Inv(s) && AreFound(s) && Commit(s, s', t)
    ensures AreFound(s') && RowsEvolve(s, s')
  {
    CommitKeepsTable(s, s', t);
    hide Inv, Unique, TaskOk, Visible;
    forall u, id | u in s'.tasks && id in s'.tasks[u].found ensures IsFound(s', u, id) {
      assert IsFound(s, u, id);
    }
  }

  lemma UnlinkingIsQuiet(s: State, s': State, t: nat)
    requires AreFound(s)
    requires (exists printer :: Begin(s, s', t, printer)) || (exists ids :: UnlinkDelete(s, s', t, ids))
             || UnlinkFail(s, s', t)
    ensures IsQuiet(s, s', t)
  {}

  lemma LockingIsQuiet(s: State, s': State, t: nat)
    requires AreFound(s) && (FetchLock(s, s', t) || Acquire(s, s', t) || Release(s, s', t))
    ensures IsQuiet(s, s', t)
  {}

  lemma CheckingIsQuiet(s: State, s': State, t: nat)
    requires AreFound(s) && (ChecksSlot(s, s', t) || EndSession(s, s', t))
    ensures IsQuiet(s, s', t)
  {
    hide Occupied, Visible;
  }

  lemma StepKeepsFound(s: State, s': State, t: nat)
    requires Inv(s) && AreFound(s) && StepBy(s, s', t)
    ensures AreFound(s') && RowsEvolve(s, s')
  {
    hide Inv, AreFound, RowsEvolve, Begin, UnlinkRead, UnlinkDelete, UnlinkCommit, UnlinkFail, FetchLock, Acquire,
      ChecksSlot, Insert, Commit, EndSession, Release, IsQuiet;
    if UnlinkRead(s, s', t) {
      ReadKeepsFound(s, s', t);
    } else if UnlinkCommit(s, s', t) {
      UnlinkKeepsFound(s, s', t);
    } else if Insert(s, s', t) {
      InsertKeepsFound(s, s', t);
    } else if Commit(s, s', t) {
      CommitKeepsFound(s, s', t);
    } else {
      if FetchLock(s, s', t) || Acquire(s, s', t) || Release(s, s', t) {
        LockingIsQuiet(s, s', t);
      } else if ChecksSlot(s, s', t) || EndSession(s, s', t) {
        CheckingIsQuiet(s, s', t);
      } else {
        UnlinkingIsQuiet(s, s', t);
      }
      QuietKeepsFound(s, s', t);
    }
  }

  /** The callback that takes step `n`. */
  lemma StepOf(run: seq<State>, n: nat) returns (t: nat)
    requires IsRun(run) && n < |run| - 1
    ensures StepBy(run[n], run[n + 1], t)
  {
    hide StepBy;
    assert Next(run[n], run[n + 1]);
    t :| StepBy(run[n], run[n + 1], t);
  }

  lemma {:induction false} RunKeepsFound(run: seq<State>, n: nat)
    requires IsRun(run) && n < |run|
    ensures Inv(run[n]) && AreFound(run[n])
  {
    if n > 0 {
      hide *;
      RunKeepsFound(run, n - 1);
      var t := StepOf(run, n - 1);
      StepKeepsInv(run[n - 1], run[n], t);
      StepKeepsFound(run[n - 1], run[n], t);
    } else {
      RunKeepsInv(run, 0);
      hide Inv;
      assert AreFound(run[0]);
    }
  }

  lemma StepsEvolve(run: seq<State>, n: nat)
    requires IsRun(run) && n < |run| - 1
    ensures RowsEvolve(run[n], run[n + 1])
  {
    hide *;
    RunKeepsFound(run, n);
    var t := StepOf(run, n);
    StepKeepsFound(run[n], run[n + 1], t);
  }

  // ---------------------------------------------------------------- a row that is gone

  ghost predicate IsGone(s: State, id: nat) {
    id < s.nextId && id !in s.table && forall u | u in s.tasks :: id !in s.tasks[u].inserted
  }

  lemma {:induction false} GoneForGood(run: seq<State>, i: nat, j: nat, id: nat)
    requires IsRun(run) && i <= j < |run| && IsGone(run[i], id)
    ensures IsGone(run[j], id)
  {
    if i < j {
      GoneForGood(run, i, j - 1, id);
      StepsEvolve(run, j - 1);
      hide IsRun;
    }
  }

  // ---------------------------------------------------------------- what a committed unlink does

  predicate IsUnlinking(s: State, t: nat) {
    t in s.tasks && s.tasks[t].pc.Unlinking?
  }

  lemma OneCallbackMoves(s: State, s': State, u: nat)
    requires StepBy(s, s', u)
    ensures u in s'.tasks && s'.tasks == s.tasks[u := s'.tasks[u]]
  {
    hide Begin, UnlinkRead, UnlinkDelete, UnlinkCommit, UnlinkFail, FetchLock, Acquire, ChecksSlot, Insert, Commit,
      EndSession, Release;
    if ChecksSlot(s, s', u) || Insert(s, s', u) || Commit(s, s', u) || EndSession(s, s', u) || Release(s, s', u) {
      BlockMovesOne(s, s', u);
    } else {
      UnlinkMovesOne(s, s', u);
    }
  }

  lemma StillThere(s: State, s': State, u: nat, t: nat)
    requires StepBy(s, s', u)
    ensures t in s.tasks ==> t in s'.tasks
  {
    OneCallbackMoves(s, s', u);
    hide *;
  }

  lemma BlockMovesOne(s: State, s': State, u: nat)
    requires ChecksSlot(s, s', u) || Insert(s, s', u) || Commit(s, s', u) || EndSession(s, s', u) || Release(s, s', u)
    ensures u in s'.tasks && s'.tasks == s.tasks[u := s'.tasks[u]]
  {
    hide Occupied, Visible, InBlock;
  }

  lemma UnlinkMovesOne(s: State, s': State, u: nat)
    requires (exists printer :: Begin(s, s', u, printer)) || UnlinkRead(s, s', u)
             || (exists ids :: UnlinkDelete(s, s', u, ids)) || UnlinkCommit(s, s', u) || UnlinkFail(s, s', u)
             || FetchLock(s, s', u) || Acquire(s, s', u)
    ensures u in s'.tasks && s'.tasks == s.tasks[u := s'.tasks[u]]
  {}

  lemma StillUnlinking(s: State, s': State, t: nat)
    requires StepBy(s, s', t) && IsUnlinking(s', t)
    ensures (exists printer :: Begin(s, s', t, printer)) || UnlinkRead(s, s', t)
            || exists ids :: UnlinkDelete(s, s', t, ids)
  {
    hide Occupied, Visible, InBlock, Begin, UnlinkRead, UnlinkDelete;
  }

  ghost predicate DeletesNow(s: State, s': State, t: nat, id: nat) {
    exists ids :: UnlinkDelete(s, s', t, ids) && id in ids
  }

  lemma DeletedNow(s: State, s': State, t: nat, id: nat)
    requires DeletesNow(s, s', t, id)
    ensures IsUnlinking(s, t) && t in s'.tasks && id in s'.tasks[t].deleted
  {}

  /** While a callback unlinks, a step adds to its deletes what it deletes, and nothing else. */
  lemma StepDeletes(s: State, s': State, u: nat, t: nat, id: nat)
    requires StepBy(s, s', u) && IsUnlinking(s', t)
    ensures if t in s.tasks then
              && IsUnlinking(s, t)
              && (id in s'.tasks[t].deleted <==> id in s.tasks[t].deleted || DeletesNow(s, s', t, id))
            else s'.tasks[t].deleted == {}
  {
    OneCallbackMoves(s, s', u);
    if DeletesNow(s, s', t, id) {
      DeletedNow(s, s', t, id);
    }
    if u == t {
      StillUnlinking(s, s', t);
      hide StepBy;
      if ids :| UnlinkDelete(s, s', t, ids) {
        assert id in ids ==> DeletesNow(s, s', t, id);
      }
    }
    hide *;
  }

  /** Callback `t` deletes row `id` in its session at step `d`. */
  ghost predicate DeletesAt(run: seq<State>, d: nat, t: nat, id: nat)
    requires d < |run| - 1
  {
    DeletesNow(run[d], run[d + 1], t, id)
  }

  /** What a callback has deleted is what it deleted step by step. */
  lemma {:induction false} DeletedExactly(run: seq<State>, i: nat, t: nat, id: nat)
    requires IsRun(run) && i < |run| && IsUnlinking(run[i], t)
    ensures id in run[i].tasks[t].deleted <==> exists d | 0 <= d < i :: DeletesAt(run, d, t, id)
  {
    hide IsRun, StepBy, DeletesNow, IsUnlinking;
    if i > 0 {
      var h := i - 1;
      var u := StepOf(run, h);
      StepDeletes(run[h], run[i], u, t, id);
      assert DeletesAt(run, h, t, id) <==> DeletesNow(run[h], run[i], t, id);
      if t in run[h].tasks {
        DeletedExactly(run, h, t, id);
      } else {
        NotBegun(run, h, t, id);
        if DeletesNow(run[h], run[i], t, id) {
          DeletedNow(run[h], run[i], t, id);
        }
      }
    } else {
      NobodyAtFirst(run, t);
    }
  }

  lemma NobodyAtFirst(run: seq<State>, t: nat)
    requires IsRun(run)
    ensures !IsUnlinking(run[0], t)
  {}

  lemma {:induction false} NotBegun(run: seq<State>, i: nat, t: nat, id: nat)
    requires IsRun(run) && i < |run| && t !in run[i].tasks
    ensures forall d | 0 <= d < i :: !DeletesAt(run, d, t, id)
  {
    hide *;
    if i > 0 {
      var h := i - 1;
      var u := StepOf(run, h);
      StillThere(run[h], run[i], u, t);
      NotBegun(run, h, t, id);
      if DeletesAt(run, h, t, id) {
        DeleterHasBegun(run, h, t, id);
      }
    }
  }

  lemma DeleterHasBegun(run: seq<State>, d: nat, t: nat, id: nat)
    requires d < |run| - 1 && DeletesAt(run, d, t, id)
    ensures t in run[d + 1].tasks
  {
    DeletedNow(run[d], run[d + 1], t, id);
  }

  /**
   A committed unlink takes out of the table exactly the rows the callback has deleted, all of its own
   printer, and they never come back; a failed one takes out nothing.
   */
  lemma CommittedUnlinkRemoves(run: seq<State>, i: nat, t: nat, id: nat)
    requires IsRun(run) && i < |run| - 1 && UnlinkCommit(run[i], run[i + 1], t)
    ensures var deleted := exists d | 0 <= d < i :: DeletesAt(run, d, t, id);
            && (id in run[i + 1].table <==> id in run[i].table && !deleted)
            && (id in run[i + 1].table ==> run[i + 1].table[id] == run[i].table[id])
            && (deleted && id in run[i].table ==> run[i].table[id].printer == run[i].tasks[t].printer)
            && (deleted ==> forall j | i < j < |run| :: id !in run[j].table)
  {
    hide StepBy, UnlinkCommit, Inv, AreFound, DeletesNow, IsGone;
    UnlinkingBefore(run[i], run[i + 1], t);
    DeletedExactly(run, i, t, id);
    RunKeepsFound(run, i);
    UnlinkTakesOut(run[i], run[i + 1], t, id);
    if id in run[i].tasks[t].deleted {
      forall j | i < j < |run| ensures id !in run[j].table {
        GoneForGood(run, i + 1, j, id);
        GoneIsNotInTable(run[j], id);
      }
    }
  }

  lemma UnlinkingBefore(s: State, s': State, t: nat)
    requires UnlinkCommit(s, s', t)
    ensures IsUnlinking(s, t)
  {}

  lemma GoneIsNotInTable(s: State, id: nat)
    requires IsGone(s, id)
    ensures id !in s.table
  {}

  lemma UnlinkTakesOut(s: State, s': State, t: nat, id: nat)
    requires AreFound(s) && UnlinkCommit(s, s', t)
    ensures var deleted := s.tasks[t].deleted;
            && (id in s'.table <==> id in s.table && id !in deleted)
            && (id in s'.table ==> s'.table[id] == s.table[id])
            && (id in deleted && id in s.table ==> s.table[id].printer == s.tasks[t].printer)
            && (id in deleted ==> IsGone(s', id))
  {
    if id in s.tasks[t].deleted {
      assert IsFound(s, t, id);
    }
  }

  lemma FailedUnlinkRemovesNothing(run: seq<State>, i: nat, t: nat)
    requires i < |run| - 1 && UnlinkFail(run[i], run[i + 1], t)
    ensures run[i + 1].table == run[i].table
  {}

  // ---------------------------------------------------------------- what a committed assignment does

  /** The slot checked has a row once the session commits, if it neither failed nor ended before. */
  lemma CommittedInsertOccupies(run: seq<State>, i: nat, j: nat, t: nat)
    requires IsRun(run) && i < j < |run| - 1 && Insert(run[i], run[i + 1], t) && Commit(run[j], run[j + 1], t)
    requires forall k | i < k <= j :: t in run[k].tasks && run[k].tasks[t].pc.Inserted?
    ensures run[i].nextId in run[j + 1].table && run[j + 1].table[run[i].nextId] == run[i].tasks[t].pc.slot
  {
    hide StepBy, Inv, Commit;
    RunKeepsFound(run, i);
    InsertKeepsFound(run[i], run[i + 1], t);
    StaysPending(run, i + 1, j, t);
    RunKeepsFound(run, j);
    CommitKeepsTable(run[j], run[j + 1], t);
  }

  lemma {:induction false} StaysPending(run: seq<State>, i: nat, j: nat, t: nat)
    requires IsRun(run) && i <= j < |run|
    requires forall k | i <= k <= j :: t in run[k].tasks && run[k].tasks[t].pc.Inserted?
    ensures run[j].tasks[t].inserted == run[i].tasks[t].inserted
  {
    if i < j {
      StaysPending(run, i, j - 1, t);
      var u := StepOf(run, j - 1);
      OneCallbackMoves(run[j - 1], run[j], u);
      if u == t {
        InsertedMovesOn(run[j - 1], run[j], t);
      }
      hide StepBy;
    }
  }

  lemma InsertedMovesOn(s: State, s': State, t: nat)
    requires StepBy(s, s', t) && t in s.tasks && s.tasks[t].pc.Inserted?
    ensures t in s'.tasks && !s'.tasks[t].pc.Inserted?
  {
    hide Occupied, Visible;
  }

  // ---------------------------------------------------------------- the other printers

  /** A callback never changes, adds or removes a row of another printer. */
  lemma OtherPrintersKeepRows(run: seq<State>, n: nat, t: nat, id: nat)
    requires IsRun(run) && n < |run| - 1 && StepBy(run[n], run[n + 1], t)
    ensures t in run[n + 1].tasks
    ensures id in run[n].table && run[n].table[id].printer != run[n + 1].tasks[t].printer ==>
              id in run[n + 1].table && run[n + 1].table[id] == run[n].table[id]
    ensures id in run[n + 1].table && run[n + 1].table[id].printer != run[n + 1].tasks[t].printer ==>
              id in run[n].table && run[n + 1].table[id] == run[n].table[id]
  {
    RunKeepsFound(run, n);
    hide IsRun;
    OneCallbackMoves(run[n], run[n + 1], t);
    var s, s' := run[n], run[n + 1];
    if UnlinkCommit(s, s', t) {
      if id in s.tasks[t].deleted {
        assert IsFound(s, t, id);
      }
    } else if Commit(s, s', t) {
      CommitKeepsTable(s, s', t);
      assert TaskOk(s, t, s.tasks[t]);
    } else {
      SameTable(s, s', t);
    }
    hide StepBy;
  }

  lemma SameTable(s: State, s': State, t: nat)
    requires StepBy(s, s', t) && !UnlinkCommit(s, s', t) && !Commit(s, s', t)
    ensures s'.table == s.table
  {
    hide Occupied, Visible, UnlinkCommit, Commit;
  }

  // ---------------------------------------------------------------- who can enter the block

  predicate HoldsLock(s: State, t: nat, lock: nat) {
    t in s.tasks && HasLock(s.tasks[t].pc) && s.tasks[t].pc.lock == lock
  }

  /** Whoever is noted as a holder is inside the block. */
  ghost predicate HoldersAreInside(s: State) {
    forall lock | lock in s.holder :: HoldsLock(s, s.holder[lock], lock)
  }

  lemma LockStepKeepsHolders(s: State, s': State, t: nat)
    requires HoldersAreInside(s) && (Acquire(s, s', t) || Release(s, s', t) || FetchLock(s, s', t))
    ensures HoldersAreInside(s')
  {}

  lemma BlockStepKeepsHolders(s: State, s': State, t: nat)
    requires HoldersAreInside(s)
    requires ChecksSlot(s, s', t) || Insert(s, s', t) || Commit(s, s', t) || EndSession(s, s', t)
    ensures HoldersAreInside(s')
  {
    hide Occupied, Visible;
  }

  lemma UnlinkStepKeepsHolders(s: State, s': State, t: nat)
    requires HoldersAreInside(s)
    requires (exists printer :: Begin(s, s', t, printer)) || UnlinkRead(s, s', t)
             || (exists ids :: UnlinkDelete(s, s', t, ids)) || UnlinkCommit(s, s', t) || UnlinkFail(s, s', t)
    ensures HoldersAreInside(s')
  {}

  lemma StepKeepsHolders(s: State, s': State, t: nat)
    requires HoldersAreInside(s) && StepBy(s, s', t)
    ensures HoldersAreInside(s')
  {
    hide HoldersAreInside, Begin, UnlinkRead, UnlinkDelete, UnlinkCommit, UnlinkFail, FetchLock, Acquire, ChecksSlot,
      Insert, Commit, EndSession, Release;
    if Acquire(s, s', t) || Release(s, s', t) || FetchLock(s, s', t) {
      LockStepKeepsHolders(s, s', t);
    } else if ChecksSlot(s, s', t) || Insert(s, s', t) || Commit(s, s', t) || EndSession(s, s', t) {
      BlockStepKeepsHolders(s, s', t);
    } else {
      UnlinkStepKeepsHolders(s, s', t);
    }
  }

  lemma {:induction false} RunKeepsHolders(run: seq<State>, n: nat)
    requires IsRun(run) && n < |run|
    ensures HoldersAreInside(run[n])
  {
    if n > 0 {
      hide *;
      RunKeepsHolders(run, n - 1);
      var t := StepOf(run, n - 1);
      StepKeepsHolders(run[n - 1], run[n], t);
    }
  }

  /** A callback at the lock can enter the block exactly when no callback of its printer is inside. */
  lemma EntersExactlyWhenEmpty(run: seq<State>, n: nat, t: nat)
    requires IsRun(run) && n < |run| && t in run[n].tasks && run[n].tasks[t].pc.AtLock?
    ensures (exists s' :: Acquire(run[n], s', t))
            <==> forall u | u in run[n].tasks && HasLock(run[n].tasks[u].pc) ::
                   run[n].tasks[u].printer != run[n].tasks[t].printer
  {
    RunKeepsHolders(run, n);
    RunKeepsFound(run, n);
    var s := run[n];
    var lock := s.tasks[t].pc.lock;
    var inside := With(s, t, s.tasks[t].(pc := Locked(lock))).(holder := s.holder[lock := t]);
    assert Acquire(s, inside, t) <==> lock !in s.holder;
    LocksBelong(s, t);
    hide Inv, AreFound, IsRun;
  }

  lemma LocksBelong(s: State, t: nat)
    requires Inv(s) && HoldersAreInside(s) && t in s.tasks && s.tasks[t].pc.AtLock?
    ensures s.tasks[t].pc.lock in s.holder
            <==> exists u | u in s.tasks && HasLock(s.tasks[u].pc) :: s.tasks[u].printer == s.tasks[t].printer
  {
    var lock := s.tasks[t].pc.lock;
    assert TaskOk(s, t, s.tasks[t]);
    if lock in s.holder {
      var u := s.holder[lock];
      assert HoldsLock(s, u, lock) && TaskOk(s, u, s.tasks[u]);
    }
    if u :| u in s.tasks && HasLock(s.tasks[u].pc) && s.tasks[u].printer == s.tasks[t].printer {
      assert TaskOk(s, u, s.tasks[u]);
    }
  }
}
