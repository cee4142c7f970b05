/**
 Offline notifications when a cancelled task ends in a step of its own. Its `finally` pops the entry of
 its printer, also when the entry is already that of the next task, which a reconnect then cannot find.
 A cancelled task has begun its sleep: one that is cancelled before has no `finally` to run.
 */
module OfflineTasks {
  import opened Wrappers
  import opened PrinterPresence

  /** A sleeping notification task; a cancelled one still has its `finally` block to run. */
  datatype Sleeper = Sleeper(due: int, cancelled: bool)

  /** One printer and its tasks: `slot` is the dictionary entry. */
  datatype Loop = Loop(
    lastConnected: Maybe<bool>, slot: Maybe<nat>, tasks: map<nat, Sleeper>, nextId: nat, notified: seq<int>)

  const IDLE := Loop(Nothing, Nothing, map[], 0, [])

  predicate IsOfflineEdge(l: Loop, connected: bool) {
    l.lastConnected == Just(true) && !connected
  }

  function LoopUpdate(l: Loop, at: int, connected: bool): Loop {
    var q := l.(lastConnected := Just(connected));
    if IsOfflineEdge(l, connected) then
      if l.slot.Just? && l.slot.value in l.tasks then q
      else
        q.(slot := Just(l.nextId), tasks := l.tasks[l.nextId := Sleeper(at + DEBOUNCE, false)], nextId := l.nextId + 1)
    else if connected then
      var cancelled :=
        if l.slot.Just? && l.slot.value in l.tasks
        then l.tasks[l.slot.value := l.tasks[l.slot.value].(cancelled := true)] else l.tasks;
      q.(slot := Nothing, tasks := cancelled)
    else q
  }

  predicate CanEnd(l: Loop, id: nat, now: int) {
    id in l.tasks && (l.tasks[id].cancelled || l.tasks[id].due <= now)
  }

  /** The task ends: cancelled, or its sleep is over. Its `finally` pops the entry, whosever it is. */
  function LoopWake(l: Loop, id: nat, now: int): Loop
    requires CanEnd(l, id, now)
  {
    l.(slot := Nothing, tasks := l.tasks - {id},
       notified := if l.tasks[id].cancelled || l.lastConnected == Just(true) then l.notified else l.notified + [now])
  }

  predicate HasCancelled(l: Loop) {
    exists id | id in l.tasks :: l.tasks[id].cancelled
  }

  // ---------------------------------------------------------------- runs

  datatype Step = Report(update: Update) | Ends(id: nat, now: int)

  function TimeOf(step: Step): int {
    if step.Report? then step.update.at else step.now
  }

  function LoopStep(l: Loop, step: Step): Loop {
    match step
    case Report(u) => LoopUpdate(l, u.at, u.connected)
    case Ends(id, now) => if CanEnd(l, id, now) then LoopWake(l, id, now) else l
  }

  function After(steps: seq<Step>): Loop {
    if steps == [] then IDLE else LoopStep(After(steps[..|steps| - 1]), steps[|steps| - 1])
  }

  /** Time does not run backwards, and only tasks that can end do. */
  predicate IsRun(steps: seq<Step>) {
    steps == []
    || (var front, last := steps[..|steps| - 1], steps[|steps| - 1];
        && IsRun(front)
        && (front != [] ==> TimeOf(front[|front| - 1]) <= TimeOf(last))
        && (last.Ends? ==> CanEnd(After(front), last.id, last.now)))
  }

  predicate IsDisconnect(l: Loop, step: Step) {
    step.Report? && IsOfflineEdge(l, step.update.connected)
  }

  /** From step `n` on the printer never disconnects while a cancelled task is still to clean up. */
  predicate CleanFrom(steps: seq<Step>, n: nat) {
    |steps| <= n
    || (var front := steps[..|steps| - 1];
        CleanFrom(front, n) && (IsDisconnect(After(front), steps[|steps| - 1]) ==> !HasCancelled(After(front))))
  }

  /** The last time the printer went offline, if it has not been reported connected since. */
  function OfflineSince(steps: seq<Step>): Maybe<int> {
    if steps == [] then Nothing
    else
      var front := steps[..|steps| - 1];
      match steps[|steps| - 1]
      case Report(u) =>
        if u.connected then Nothing
        else if After(front).lastConnected == Just(true) then Just(u.at)
        else OfflineSince(front)
      case Ends(_, _) => OfflineSince(front)
  }

  predicate Notifies(l: Loop, step: Step) {
    step.Ends? && CanEnd(l, step.id, step.now) && !l.tasks[step.id].cancelled && l.lastConnected != Just(true)
  }

  /** Every notification comes after a full window without a connected update. */
  predicate Timely(steps: seq<Step>) {
    steps == []
    || (var front, last := steps[..|steps| - 1], steps[|steps| - 1];
        && Timely(front)
        && (Notifies(After(front), last) ==>
              OfflineSince(front).Just? && OfflineSince(front).value + DEBOUNCE <= last.now))
  }

  lemma Snoc(steps: seq<Step>, step: Step)
    ensures After(steps + [step]) == LoopStep(After(steps), step)
    ensures IsRun(steps + [step])
            <==> && IsRun(steps)
                 && (steps != [] ==> TimeOf(steps[|steps| - 1]) <= TimeOf(step))
                 && (step.Ends? ==> CanEnd(After(steps), step.id, step.now))
    ensures Timely(steps + [step])
            <==> && Timely(steps)
                 && (Notifies(After(steps), step) ==>
                       OfflineSince(steps).Just? && OfflineSince(steps).value + DEBOUNCE <= step.now)
    ensures step.Report? && !step.update.connected && After(steps).lastConnected == Just(true) ==>
              OfflineSince(steps + [step]) == Just(step.update.at)
    ensures forall n: nat | n <= |steps| ::
              CleanFrom(steps + [step], n)
              <==> CleanFrom(steps, n) && (IsDisconnect(After(steps), step) ==> !HasCancelled(After(steps)))
  {
    assert (steps + [step])[..|steps|] == steps;
  }

  /** While the printer is connected its entry is empty, so a disconnect always starts a task. */
  lemma {:induction false} ConnectedHasNoEntry(steps: seq<Step>)
    ensures var l := After(steps);
            && (l.lastConnected == Just(true) ==> l.slot.Nothing?)
            && forall id | id in l.tasks :: id < l.nextId
  {
    if steps != [] {
      ConnectedHasNoEntry(steps[..|steps| - 1]);
    }
  }

  /** The entry is always that of a task that is still there. */
  lemma {:induction false} EntryIsRunning(steps: seq<Step>)
    ensures After(steps).slot.Just? ==> After(steps).slot.value in After(steps).tasks
  {
    if steps != [] {
      EntryIsRunning(steps[..|steps| - 1]);
    }
  }

  /** The connection as it was last reported. */
  function LastReported(steps: seq<Step>): Maybe<bool> {
    if steps == [] then Nothing
    else
      match steps[|steps| - 1]
      case Report(u) => Just(u.connected)
      case Ends(_, _) => LastReported(steps[..|steps| - 1])
  }

  lemma {:induction false} ConnectionIsLastReported(steps: seq<Step>)
    ensures After(steps).lastConnected == LastReported(steps)
  {
    if steps != [] {
      ConnectionIsLastReported(steps[..|steps| - 1]);
    }
  }

  /** A step notifies exactly when a task ends whose sleep was not cut short, and nothing says the printer is back. */
  lemma NotifiedExactly(steps: seq<Step>, step: Step)
    requires IsRun(steps + [step])
    ensures var l := After(steps);
            After(steps + [step]).notified
            == l.notified + if step.Ends? && !l.tasks[step.id].cancelled && LastReported(steps) != Just(true)
                            then [step.now] else []
    ensures step.Ends? && !After(steps).tasks[step.id].cancelled ==> After(steps).tasks[step.id].due <= step.now
  {
    hide After, IsRun, LastReported;
    Snoc(steps, step);
    ConnectionIsLastReported(steps);
  }

  // ---------------------------------------------------------------- clean runs

  /** There is one task at most, and one that is not cancelled is in its slot, due a window after the disconnect. */
  ghost predicate IsTidy(l: Loop, since: Maybe<int>) {
    && (forall id, other | id in l.tasks && other in l.tasks :: id == other)
    && forall id | id in l.tasks && !l.tasks[id].cancelled ::
         l.slot == Just(id) && l.lastConnected == Just(false) && since == Just(l.tasks[id].due - DEBOUNCE)
  }

  lemma {:induction false} CleanRunIsTidy(steps: seq<Step>)
    requires CleanFrom(steps, 0)
    ensures IsTidy(After(steps), OfflineSince(steps))
  {
    if steps != [] {
      var front, last := steps[..|steps| - 1], steps[|steps| - 1];
      CleanRunIsTidy(front);
      if IsDisconnect(After(front), last) {
        NoTaskWhileConnected(After(front), OfflineSince(front));
      }
    }
  }

  lemma NoTaskWhileConnected(l: Loop, since: Maybe<int>)
    requires IsTidy(l, since) && l.lastConnected == Just(true) && !HasCancelled(l)
    ensures l.tasks == map[]
  {
    assert forall id :: id !in l.tasks;
  }

  /** Without a disconnect during a pending cleanup every notification keeps the window. */
  lemma {:induction false} CleanRunsAreTimely(steps: seq<Step>)
    requires CleanFrom(steps, 0)
    ensures Timely(steps)
  {
    if steps != [] {
      var front := steps[..|steps| - 1];
      CleanRunIsTidy(front);
      CleanRunsAreTimely(front);
      if Notifies(After(front), steps[|steps| - 1]) {
        EndOfTidyIsTimely(After(front), OfflineSince(front), steps[|steps| - 1]);
      }
      hide After, OfflineSince, Notifies, IsTidy;
    }
  }

  lemma EndOfTidyIsTimely(l: Loop, since: Maybe<int>, step: Step)
    requires IsTidy(l, since) && Notifies(l, step)
    ensures since.Just? && since.value + DEBOUNCE <= step.now
  {
    assert since == Just(l.tasks[step.id].due - DEBOUNCE);
  }

  // ---------------------------------------------------------------- a disconnect during a cleanup

  /** The cleanup, a reconnect and a second disconnect, and the first task wakes too early for the second. */
  function EarlyEnd(l: Loop, cancelled: nat, at: int): seq<Step> {
    [Ends(cancelled, at), Report(Update(at, true, "")), Report(Update(at + 1, false, "")),
     Ends(l.nextId, at + DEBOUNCE)]
  }

  /** From every reachable state a disconnect during a pending cleanup can lead to an early notification. */
  lemma UncleanDisconnectCanNotifyEarly(steps: seq<Step>, u: Update, cancelled: nat)
    requires IsRun(steps + [Report(u)]) && IsDisconnect(After(steps), Report(u))
    requires cancelled in After(steps).tasks && After(steps).tasks[cancelled].cancelled
    ensures var all := steps + [Report(u)] + EarlyEnd(After(steps), cancelled, u.at); IsRun(all) && !Timely(all)
    ensures (forall id | id in After(steps).tasks :: id == cancelled) ==>
              CleanFrom(steps + [Report(u)] + EarlyEnd(After(steps), cancelled, u.at), |steps| + 1)
  {
    hide After, IsRun, Timely, OfflineSince, CleanFrom;
    ConnectedHasNoEntry(steps);
    var l, rest := After(steps), EarlyEnd(After(steps), cancelled, u.at);
    var s0 := steps + [Report(u)];
    var s1 := s0 + [rest[0]];
    var s2 := s1 + [rest[1]];
    var s3 := s2 + [rest[2]];
    Snoc(steps, Report(u));
    Snoc(s0, rest[0]);
    Snoc(s1, rest[1]);
    Snoc(s2, rest[2]);
    Snoc(s3, rest[3]);
    assert s3 + [rest[3]] == s0 + rest;
    NothingFollows(s0);
    assert After(s3).tasks[l.nextId] == Sleeper(u.at + DEBOUNCE, false);
    assert !HasCancelled(After(s2)) <== forall id | id in l.tasks :: id == cancelled;
  }

  lemma NothingFollows(steps: seq<Step>)
    ensures CleanFrom(steps, |steps|)
  {}

  lemma {:induction false} CleanContinuation(steps: seq<Step>, rest: seq<Step>)
    requires CleanFrom(steps, 0) && CleanFrom(steps + rest, |steps|)
    ensures CleanFrom(steps + rest, 0)
  {
    if rest == [] {
      assert steps + rest == steps;
    } else {
      hide After;
      assert (steps + rest)[..|steps + rest| - 1] == steps + rest[..|rest| - 1];
      CleanContinuation(steps, rest[..|rest| - 1]);
    }
  }

  /** No continuation, clean from here on, has an early notification. */
  ghost predicate NeverEarly(steps: seq<Step>) {
    forall rest | IsRun(steps + rest) && CleanFrom(steps + rest, |steps|) :: Timely(steps + rest)
  }

  /**
   After a clean run, a disconnect is safe whatever happens then, as long as that is clean, exactly when
   no cancelled task is still to clean up.
   */
  lemma DisconnectIsSafeExactlyWhenClean(steps: seq<Step>, u: Update)
    requires CleanFrom(steps, 0) && IsRun(steps + [Report(u)]) && IsDisconnect(After(steps), Report(u))
    ensures NeverEarly(steps + [Report(u)]) <==> !HasCancelled(After(steps))
  {
    hide After, IsRun, Timely, OfflineSince, CleanFrom;
    var all := steps + [Report(u)];
    Snoc(steps, Report(u));
    if !HasCancelled(After(steps)) {
      forall rest | IsRun(all + rest) && CleanFrom(all + rest, |all|) ensures Timely(all + rest) {
        CleanContinuation(all, rest);
        CleanRunsAreTimely(all + rest);
      }
    } else {
      var cancelled :| cancelled in After(steps).tasks && After(steps).tasks[cancelled].cancelled;
      CleanRunIsTidy(steps);
      UncleanDisconnectCanNotifyEarly(steps, u, cancelled);
    }
  }

  // ---------------------------------------------------------------- clean runs that are on time

  /** A task that is due ends before anything later happens, at the time it is due. */
  predicate IsPrompt(steps: seq<Step>) {
    steps == []
    || (var front, last := steps[..|steps| - 1], steps[|steps| - 1];
        IsPrompt(front) && IsPromptStep(After(front), last))
  }

  predicate IsPromptStep(l: Loop, step: Step) {
    match step
    case Report(u) => NothingDue(l, u.at)
    case Ends(id, now) => id in l.tasks && !l.tasks[id].cancelled ==> l.tasks[id].due == now
  }

  predicate NothingDue(l: Loop, now: int) {
    forall id | id in l.tasks && !l.tasks[id].cancelled :: l.tasks[id].due > now
  }

  function Reports(steps: seq<Step>): seq<Update> {
    if steps == [] then []
    else
      Reports(steps[..|steps| - 1])
      + match steps[|steps| - 1] { case Report(u) => [u] case Ends(_, _) => [] }
  }

  ghost predicate HasPending(l: Loop, due: int) {
    exists id | id in l.tasks :: l.tasks[id] == Sleeper(due, false)
  }

  /** The loop stands where the atomic account stands. */
  ghost predicate Matches(l: Loop, p: Presence) {
    && l.lastConnected == p.lastConnected && l.notified == p.notified
    && forall due :: HasPending(l, due) <==> p.offlineTask == Just(due)
  }

  /** The loop matches the atomic account now, or once the task that is due has woken there as well. */
  ghost predicate Follows(l: Loop, p: Presence, now: Maybe<int>) {
    || Matches(l, p)
    || (p.offlineTask.Just? && now.Just? && p.offlineTask.value <= now.value
        && Matches(l, Wake(p, p.offlineTask.value)))
  }

  function Now(steps: seq<Step>): Maybe<int> {
    if steps == [] then Nothing else Just(TimeOf(steps[|steps| - 1]))
  }

  lemma ReportFollows(l: Loop, since: Maybe<int>, p: Presence, now: Maybe<int>, u: Update)
    requires IsTidy(l, since) && Follows(l, p, now) && NothingDue(l, u.at) && (now.Just? ==> now.value <= u.at)
    requires l.lastConnected == Just(true) ==> l.slot.Nothing?
    requires IsOfflineEdge(l, u.connected) ==> l.tasks == map[]
    ensures Matches(LoopUpdate(l, u.at, u.connected), Observe(p, u))
  {
    var woken := Wake(p, u.at);
    assert Matches(l, woken);
    var after := LoopUpdate(l, u.at, u.connected);
    if IsOfflineEdge(l, u.connected) {
      assert after.tasks == map[l.nextId := Sleeper(u.at + DEBOUNCE, false)];
      forall due ensures woken.offlineTask != Just(due) {
        assert !HasPending(l, due);
      }
    }
  }

  lemma EndFollows(l: Loop, since: Maybe<int>, p: Presence, now: Maybe<int>, id: nat, at: int)
    requires IsTidy(l, since) && Follows(l, p, now) && (now.Just? ==> now.value <= at)
    requires CanEnd(l, id, at) && IsPromptStep(l, Ends(id, at))
    ensures Follows(LoopWake(l, id, at), p, Just(at))
  {
    var after := LoopWake(l, id, at);
    assert after.tasks == map[];
    if !l.tasks[id].cancelled {
      assert HasPending(l, at);
    }
  }

  lemma {:induction false} PromptRunFollows(steps: seq<Step>)
    requires IsRun(steps) && CleanFrom(steps, 0) && IsPrompt(steps)
    ensures Follows(After(steps), Watch(Reports(steps)), Now(steps))
  {
    if steps != [] {
      var front, last := steps[..|steps| - 1], steps[|steps| - 1];
      PromptRunFollows(front);
      CleanRunIsTidy(front);
      ConnectedHasNoEntry(front);
      var l := After(front);
      match last
      case Report(u) =>
        assert Reports(steps) == Reports(front) + [u];
        if IsDisconnect(l, last) {
          NoTaskWhileConnected(l, OfflineSince(front));
        }
        ReportFollows(l, OfflineSince(front), Watch(Reports(front)), Now(front), u);
      case Ends(id, now) =>
        assert Reports(steps) == Reports(front);
        EndFollows(l, OfflineSince(front), Watch(Reports(front)), Now(front), id, now);
    }
  }

  lemma {:induction false} ReportsAreTimed(steps: seq<Step>)
    requires IsRun(steps)
    ensures Timed(Reports(steps))
    ensures forall u | u in Reports(steps) :: Now(steps).Just? && u.at <= Now(steps).value
  {
    if steps != [] {
      hide After;
      var front := steps[..|steps| - 1];
      ReportsAreTimed(front);
      TimedSnoc(Reports(front), steps[|steps| - 1]);
    }
  }

  lemma TimedSnoc(us: seq<Update>, last: Step)
    requires Timed(us) && forall u | u in us :: u.at <= TimeOf(last)
    ensures last.Report? ==> Timed(us + [last.update])
  {
    assert forall i | 0 <= i < |us| :: us[i] in us;
  }

  /**
   A clean run in which due tasks wake on time notifies exactly what atomic cancellation notifies: the
   disconnects followed by a full window without a connected update.
   */
  lemma CleanRunsNotifyLastingEdges(steps: seq<Step>, horizon: int)
    requires IsRun(steps) && CleanFrom(steps, 0) && IsPrompt(steps)
    requires NothingDue(After(steps), horizon) && (steps != [] ==> TimeOf(steps[|steps| - 1]) <= horizon)
    ensures After(steps).notified == Due(Reports(steps), |Reports(steps)|, horizon)
  {
    PromptRunFollows(steps);
    ReportsAreTimed(steps);
    hide After, IsRun, CleanFrom, IsPrompt, Reports, Watch, Due;
    var us := Reports(steps);
    assert us != [] ==> us[|us| - 1] in us;
    NotifiesExactlyLastingEdges(us, horizon);
    var l, p := After(steps), Watch(us);
    assert p.offlineTask.Just? && Matches(l, p) ==> HasPending(l, p.offlineTask.value);
  }

  // ---------------------------------------------------------------- one run

  /**
   With a late cleanup the window is not what it should be: this printer is notified offline at 72,
   two seconds after the edge at 70, by the task of the edge at 12, which the reconnect at 20 no longer
   found in the slot.
   */
  lemma LateCleanupNotifiesEarly()
    ensures var l0 := LoopUpdate(IDLE, 0, true);
            var l1 := LoopUpdate(LoopUpdate(LoopUpdate(l0, 10, false), 11, true), 12, false);
            && 0 in l1.tasks && l1.tasks[0].cancelled
            && var l2 := LoopUpdate(LoopUpdate(LoopWake(l1, 0, 12), 20, true), 70, false);
            && 1 in l2.tasks && l2.tasks[1].due <= 72
            && LoopWake(l2, 1, 72).notified == [72]
  {
    var l0 := LoopUpdate(IDLE, 0, true);
    var a := LoopUpdate(l0, 10, false);
    assert a.tasks == map[0 := Sleeper(70, false)];
    var b := LoopUpdate(a, 11, true);
    assert b.tasks == map[0 := Sleeper(70, true)];
    var c := LoopUpdate(b, 12, false);
    assert c.tasks == map[0 := Sleeper(70, true), 1 := Sleeper(72, false)];
    var d := LoopWake(c, 0, 12);
    assert d.tasks == map[1 := Sleeper(72, false)];
  }
}
