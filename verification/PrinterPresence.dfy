/**
 The edges that `on_printer_status_change` acts on: one offline notification after a debounce, one
 reconciliation per connection. Times are seconds; a sleeping notification task runs when it is due,
 and cancelling one takes effect at once; `OfflineTasks` says what happens when it takes effect later.
 */
module PrinterPresence {
  import opened Text
  import opened Wrappers

  const DEBOUNCE := 60

  /** One status callback: when, whether the printer is connected, and the state it reports. */
  datatype Update = Update(at: int, connected: bool, state: string)

  /** What is kept for one printer, and what has been done for it so far. */
  datatype Presence = Presence(
    lastConnected: Maybe<bool>, offlineTask: Maybe<int>, reconciled: bool,
    notified: seq<int>, reconciledAt: seq<nat>, seen: nat)

  const FRESH := Presence(Nothing, Nothing, false, [], [], 0)

  predicate IsKnown(state: string) {
    state != "" && UpperAll(state) != "UNKNOWN"
  }

  /** The pending task wakes if it is due by `now`: it notifies if the printer is still offline. */
  function Wake(p: Presence, now: int): Presence {
    if p.offlineTask.Nothing? || p.offlineTask.value > now then p
    else p.(offlineTask := Nothing,
            notified := if p.lastConnected == Just(true) then p.notified else p.notified + [p.offlineTask.value])
  }

  function Reconcile(p: Presence, u: Update): Presence {
    if u.connected && IsKnown(u.state) && !p.reconciled
    then p.(reconciled := true, reconciledAt := p.reconciledAt + [p.seen])
    else if !u.connected && p.reconciled then p.(reconciled := false)
    else p
  }

  function Schedule(p: Presence, u: Update): Presence {
    var q := p.(lastConnected := Just(u.connected));
    if p.lastConnected == Just(true) && !u.connected then
      if p.offlineTask.Nothing? then q.(offlineTask := Just(u.at + DEBOUNCE)) else q
    else if u.connected then q.(offlineTask := Nothing)
    else q
  }

  function Observe(p: Presence, u: Update): Presence {
    var q := Schedule(Reconcile(Wake(p, u.at), u), u);
    q.(seen := p.seen + 1)
  }

  function Watch(us: seq<Update>): Presence {
    if us == [] then FRESH else Observe(Watch(us[..|us| - 1]), us[|us| - 1])
  }

  // ---------------------------------------------------------------- the dictionaries

  class PresenceMonitor {
    var lastConnected: map<int, bool>
    var offlineTasks: map<int, int>
    var reconciledSinceConnect: map<int, bool>
    ghost var notified: map<int, seq<int>>
    ghost var reconciledAt: map<int, seq<nat>>
    ghost var seen: map<int, nat>

    ghost function Of(printer: int): Presence
      reads this
    {
      Presence(
        if printer in lastConnected then Just(lastConnected[printer]) else Nothing,
        if printer in offlineTasks then Just(offlineTasks[printer]) else Nothing,
        printer in reconciledSinceConnect && reconciledSinceConnect[printer],
        if printer in notified then notified[printer] else [],
        if printer in reconciledAt then reconciledAt[printer] else [],
        if printer in seen then seen[printer] else 0)
    }

    constructor ()
      ensures forall printer :: Of(printer) == FRESH
    {
      lastConnected, offlineTasks, reconciledSinceConnect := map[], map[], map[];
      notified, reconciledAt, seen := map[], map[], map[];
    }

    /** `_maybe_notify_printer_offline` once its sleep is over. */
    method WakeOfflineTask(printer: int, now: int)
      modifies this
      ensures Of(printer) == Wake(old(Of(printer)), now)
      ensures old(printer in lastConnected && lastConnected[printer]) ==> notified == old(notified)
      ensures forall other | other != printer :: Of(other) == old(Of(other))
    {
      if printer in offlineTasks && offlineTasks[printer] <= now {
        var stillOffline := !(printer in lastConnected && lastConnected[printer]);
        if stillOffline {
          var before := if printer in notified then notified[printer] else [];
          notified := notified[printer := before + [offlineTasks[printer]]];
        }
        offlineTasks := offlineTasks - {printer};
      }
    }

    /** The connected edge: mark the connection before the reconciliation runs. */
    method CheckReconcile(printer: int, u: Update)
      modifies this`reconciledSinceConnect, this`reconciledAt
      ensures Of(printer) == Reconcile(old(Of(printer)), u)
      ensures forall other | other != printer :: Of(other) == old(Of(other))
    {
      var done := printer in reconciledSinceConnect && reconciledSinceConnect[printer];
      if u.connected && IsKnown(u.state) && !done {
        reconciledSinceConnect := reconciledSinceConnect[printer := true];
        reconciledAt := reconciledAt[printer := Of(printer).reconciledAt + [Of(printer).seen]];
      } else if !u.connected && done {
        reconciledSinceConnect := reconciledSinceConnect[printer := false];
      }
    }

    /** The offline edge: schedule on a disconnect, cancel on a reconnect. */
    method CheckOffline(printer: int, u: Update)
      modifies this`lastConnected, this`offlineTasks
      ensures Of(printer) == Schedule(old(Of(printer)), u)
      ensures old(printer in offlineTasks) && !u.connected ==> offlineTasks == old(offlineTasks)
      ensures forall other | other != printer :: Of(other) == old(Of(other))
    {
      var wasConnected := printer in lastConnected && lastConnected[printer];
      lastConnected := lastConnected[printer := u.connected];
      if wasConnected && !u.connected {
        if printer !in offlineTasks {
          offlineTasks := offlineTasks[printer := u.at + DEBOUNCE];
        }
      } else if u.connected {
        offlineTasks := offlineTasks - {printer};
      }
    }

    method OnStatusChange(printer: int, u: Update)
      modifies this
      ensures Of(printer) == Observe(old(Of(printer)), u)
      ensures forall other | other != printer :: Of(other) == old(Of(other))
    {
      hide Wake, Reconcile, Schedule;
      WakeOfflineTask(printer, u.at);
      CheckReconcile(printer, u);
      CheckOffline(printer, u);
      StepKeepsCount(old(Of(printer)), u);
      seen := seen[printer := Of(printer).seen + 1];
    }
  }

  lemma StepKeepsCount(p: Presence, u: Update)
    ensures Schedule(Reconcile(Wake(p, u.at), u), u).seen == p.seen
  {}

  // ---------------------------------------------------------------- offline notifications

  ghost predicate Timed(us: seq<Update>) {
    forall i, j | 0 <= i <= j < |us| :: us[i].at <= us[j].at
  }

  /** The printer goes from connected to disconnected with update `i`. */
  predicate IsEdge(us: seq<Update>, i: nat)
    requires i < |us|
  {
    i > 0 && us[i - 1].connected && !us[i].connected
  }

  /** Nothing connected is reported within the debounce window after update `i`, which is over by `horizon`. */
  ghost predicate StaysOffline(us: seq<Update>, i: nat, horizon: int)
    requires i < |us|
  {
    && us[i].at + 60 <= horizon
    && forall j | i < j < |us| && us[j].connected :: us[j].at >= us[i].at + 60
  }

  /** One notification for every edge among the first `n` updates after which the printer stays offline. */
  ghost function Due(us: seq<Update>, n: nat, horizon: int): seq<int>
    requires n <= |us|
  {
    if n == 0 then []
    else if IsEdge(us, n - 1) && StaysOffline(us, n - 1, horizon)
    then Due(us, n - 1, horizon) + [us[n - 1].at + 60]
    else Due(us, n - 1, horizon)
  }

  /** With one more update, and the horizon moved to `later`, the same edges count. */
  lemma {:induction false} DueExtends(us: seq<Update>, u: Update, n: nat, horizon: int, later: int)
    requires n <= |us|
    requires forall i | 0 <= i < n && IsEdge(us, i) ::
               StaysOffline(us, i, horizon) <==> StaysOffline(us + [u], i, later)
    ensures Due(us, n, horizon) == Due(us + [u], n, later)
  {
    if n > 0 {
      assert IsEdge(us, n - 1) <==> IsEdge(us + [u], n - 1);
      DueExtends(us, u, n - 1, horizon, later);
    }
  }

  /** A task is pending only while the printer is offline, and it belongs to the last edge. */
  ghost predicate PendingIsOffline(p: Presence) {
    p.offlineTask.Just? ==> p.lastConnected == Just(false)
  }

  lemma {:induction false} WatchFacts(us: seq<Update>)
    ensures PendingIsOffline(Watch(us)) && Watch(us).seen == |us|
    ensures Watch(us).lastConnected == if us == [] then Nothing else Just(us[|us| - 1].connected)
  {
    if us != [] {
      WatchFacts(us[..|us| - 1]);
    }
  }

  /** Which of the earlier edges count, once `u` is reported. */
  lemma EarlierEdges(front: seq<Update>, u: Update, horizon: int)
    requires Timed(front + [u]) && u.at <= horizon
    ensures var settled := if u.connected || (front != [] && front[|front| - 1].connected) then u.at else horizon;
            Due(front, |front|, settled) == Due(front + [u], |front|, horizon)
  {
    var us, n := front + [u], |front|;
    var settled := if u.connected || (front != [] && front[n - 1].connected) then u.at else horizon;
    forall i | 0 <= i < n && IsEdge(front, i)
      ensures StaysOffline(front, i, settled) <==> StaysOffline(us, i, horizon)
    {
      assert forall j | 0 <= j < n :: us[j] == front[j];
      assert us[n] == u && us[n - 1].at <= u.at;
    }
    DueExtends(front, u, n, settled, horizon);
  }

  /** Waking by `now` and observing an update at `now`, then waking again. */
  lemma ObserveThenWake(p: Presence, u: Update, horizon: int)
    requires PendingIsOffline(p) && u.at <= horizon
    ensures var after := Wake(Observe(p, u), horizon).notified;
            after == if u.connected then Wake(p, u.at).notified
                     else if p.lastConnected == Just(true) then
                       Wake(p, u.at).notified + (if u.at + DEBOUNCE <= horizon then [u.at + DEBOUNCE] else [])
                     else Wake(p, horizon).notified
  {}

  lemma LastEdge(front: seq<Update>, u: Update, horizon: int)
    ensures var us, n := front + [u], |front|;
            var lasting := front != [] && front[n - 1].connected && !u.connected && u.at + DEBOUNCE <= horizon;
            Due(us, n + 1, horizon) == Due(us, n, horizon) + if lasting then [u.at + DEBOUNCE] else []
  {
    var us, n := front + [u], |front|;
    assert us[n] == u && (n > 0 ==> us[n - 1] == front[n - 1]);
  }

  lemma FrontIsTimed(front: seq<Update>, u: Update)
    requires Timed(front + [u])
    ensures Timed(front) && (front != [] ==> front[|front| - 1].at <= u.at)
  {
    var us, n := front + [u], |front|;
    assert forall i | 0 <= i < n :: us[i] == front[i];
    assert us[n] == u;
  }

  /**
   By `horizon` exactly the edges that were followed by a full debounce window without a connected
   update have been notified, each once, each when its window ended.
   */
  lemma {:induction false} NotifiesExactlyLastingEdges(us: seq<Update>, horizon: int)
    requires Timed(us) && (us != [] ==> us[|us| - 1].at <= horizon)
    ensures Wake(Watch(us), horizon).notified == Due(us, |us|, horizon)
  {
    if us != [] {
      hide Wake, Observe, Due, PendingIsOffline, Timed;
      var front, u := us[..|us| - 1], us[|us| - 1];
      assert us == front + [u];
      FrontIsTimed(front, u);
      WatchFacts(front);
      NotifiesExactlyLastingEdges(front, u.at);
      NotifiesExactlyLastingEdges(front, horizon);
      EarlierEdges(front, u, horizon);
      LastEdge(front, u, horizon);
      ObserveThenWake(Watch(front), u, horizon);
    }
  }

  // ---------------------------------------------------------------- reconciliation

  /** The state says nothing: it is empty, or the seven letters of "unknown" in any case. */
  predicate SaysNothing(state: string) {
    || state == ""
    || (|state| == 7 && state[0] in "uU" && state[1] in "nN" && state[2] in "kK" && state[3] in "nN"
        && state[4] in "oO" && state[5] in "wW" && state[6] in "nN")
  }

  lemma KnownSaysSomething(state: string)
    ensures IsKnown(state) <==> !SaysNothing(state)
  {
    assert forall c: char :: (Upper(c) == 'U' <==> c in "uU") && (Upper(c) == 'N' <==> c in "nN");
    assert forall c: char :: (Upper(c) == 'K' <==> c in "kK") && (Upper(c) == 'O' <==> c in "oO");
    assert forall c: char :: Upper(c) == 'W' <==> c in "wW";
    if |state| == 7 {
      assert UpperAll(state) == [Upper(state[0]), Upper(state[1]), Upper(state[2]), Upper(state[3]), Upper(state[4]),
                                 Upper(state[5]), Upper(state[6])];
    }
  }

  /** The printer is connected and says what it does. */
  predicate IsReport(u: Update) {
    u.connected && !SaysNothing(u.state)
  }

  /** Update `i` is the first report since the printer was last reported disconnected. */
  ghost predicate FirstReport(us: seq<Update>, i: nat)
    requires i < |us|
  {
    IsReport(us[i]) && forall j | 0 <= j < i && IsReport(us[j]) :: exists k | j < k < i :: !us[k].connected
  }

  ghost function FirstReports(us: seq<Update>, n: nat): seq<nat>
    requires n <= |us|
  {
    if n == 0 then [] else FirstReports(us, n - 1) + if FirstReport(us, n - 1) then [n - 1] else []
  }

  /** There has been a report in the connection that is still up after all of `us`. */
  ghost predicate ReportedInConnection(us: seq<Update>) {
    exists j | 0 <= j < |us| :: IsReport(us[j]) && forall k | j < k < |us| :: us[k].connected
  }

  lemma {:induction false} FirstReportsPrefix(us: seq<Update>, u: Update, n: nat)
    requires n <= |us|
    ensures FirstReports(us, n) == FirstReports(us + [u], n)
  {
    if n > 0 {
      FirstReportsPrefix(us, u, n - 1);
      assert forall j | 0 <= j < n :: (us + [u])[j] == us[j];
      assert FirstReport(us, n - 1) <==> FirstReport(us + [u], n - 1);
    }
  }

  lemma ReportedInConnectionSnoc(us: seq<Update>, u: Update)
    ensures ReportedInConnection(us + [u]) <==> u.connected && (IsReport(u) || ReportedInConnection(us))
  {
    var all := us + [u];
    assert forall j | 0 <= j < |us| :: all[j] == us[j];
    if u.connected && ReportedInConnection(us) {
      var j :| 0 <= j < |us| && IsReport(us[j]) && forall k | j < k < |us| :: us[k].connected;
      assert all[j] == us[j] && forall k | j < k < |all| :: all[k].connected;
    }
    if IsReport(u) {
      assert IsReport(all[|us|]);
    }
    if ReportedInConnection(all) {
      var j :| 0 <= j < |all| && IsReport(all[j]) && forall k | j < k < |all| :: all[k].connected;
      assert all[|us|] == u;
      if j < |us| {
        assert us[j].connected && forall k | j < k < |us| :: us[k] == all[k];
      }
    }
  }

  lemma FirstReportSnoc(us: seq<Update>, u: Update)
    ensures FirstReport(us + [u], |us|) <==> IsReport(u) && !ReportedInConnection(us)
  {
    var all := us + [u];
    assert forall j | 0 <= j < |us| :: all[j] == us[j];
  }

  lemma ObserveReconciles(p: Presence, u: Update)
    ensures var after := Observe(p, u);
            && after.reconciledAt == p.reconciledAt + (if IsReport(u) && !p.reconciled then [p.seen] else [])
            && (after.reconciled <==> u.connected && (IsReport(u) || p.reconciled))
  {
    hide SaysNothing, IsKnown;
    KnownSaysSomething(u.state);
  }

  /**
   Reconciliation is spawned with the first report of each connected period and at no other update; a
   period without a report spawns none.
   */
  lemma {:induction false} ReconcilesOncePerConnection(us: seq<Update>)
    ensures Watch(us).reconciledAt == FirstReports(us, |us|)
    ensures Watch(us).reconciled <==> ReportedInConnection(us)
  {
    if us != [] {
      hide FirstReport, ReportedInConnection, Observe;
      var front, u := us[..|us| - 1], us[|us| - 1];
      assert us == front + [u];
      ReconcilesOncePerConnection(front);
      WatchFacts(front);
      ObserveReconciles(Watch(front), u);
      FirstReportsPrefix(front, u, |front|);
      ReportedInConnectionSnoc(front, u);
      FirstReportSnoc(front, u);
    }
  }

  /** The broadcast of a fresh connection says nothing: the reconciliation waits for the report after it. */
  lemma FreshConnectionWaits()
    ensures Watch([Update(0, true, "unknown"), Update(1, true, "RUNNING")]).reconciledAt == [1]
  {
    var us := [Update(0, true, "unknown"), Update(1, true, "RUNNING")];
    assert SaysNothing("unknown") && !SaysNothing("RUNNING");
    ReconcilesOncePerConnection(us);
    assert FirstReports(us, 2) == FirstReports(us, 1) + [1] && FirstReports(us, 1) == FirstReports(us, 0);
  }
}
