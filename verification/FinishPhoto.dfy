/**
 The handshake around the finish photo of one printer: `on_finish_photo_moment` produces a frame,
 `_background_finish_photo` consumes it or grabs its own. Any number of producers and consumers run in
 any interleaving; a producer's event is known by the producer's number.
 */
module FinishPhoto {
  import opened Wrappers

  const TIMEOUT := 20

  /** `Skipped`: a timelapse was running. `Stored`: a frame is in the cache, the event not yet set. */
  datatype Producer = Skipped | Working | Stored | Exited

  /** The event a consumer took out of the registry, and when it began to wait for it. */
  datatype Ticket = Ticket(producer: nat, since: int)

  /**
   `Waiting` on the event, `Ready` to look into the cache, then either the frame `Used` or the
   consumer's own camera `Grabbing`; the ticket says what was waited for, if anything.
   */
  datatype Consumer =
    | Idle
    | Waiting(taken: Ticket)
    | Ready(ticket: Maybe<Ticket>)
    | Used(frame: nat, ticket: Maybe<Ticket>)
    | Grabbing(ticket: Maybe<Ticket>)
    | Left

  /** `inFlight` and `frame` are the two dictionaries' entries for the printer; frames are named by producer. */
  datatype State = State(
    clock: int, inFlight: Maybe<nat>, frame: Maybe<nat>, signalled: set<nat>,
    producers: map<nat, Producer>, consumers: map<nat, Consumer>)

  ghost predicate Init(s: State) {
    s.inFlight.Nothing? && s.frame.Nothing? && s.signalled == {} && s.producers == map[] && s.consumers == map[]
  }

  // ---------------------------------------------------------------- producer steps

  /** The event is registered before the first await; with a timelapse nothing is. */
  ghost predicate Moment(s: State, s': State, p: nat, timelapse: bool) {
    && p !in s.producers
    && s' == if timelapse then s.(producers := s.producers[p := Skipped])
             else s.(producers := s.producers[p := Working], inFlight := Just(p))
  }

  ghost predicate Store(s: State, s': State, p: nat) {
    && p in s.producers && s.producers[p].Working?
    && s' == s.(producers := s.producers[p := Stored], frame := Just(p))
  }

  /** Early return, failure, cancellation or normal end: the `finally` block sets the event. */
  ghost predicate Exit(s: State, s': State, p: nat) {
    && p in s.producers && (s.producers[p].Working? || s.producers[p].Stored?)
    && s' == s.(producers := s.producers[p := Exited], signalled := s.signalled + {p})
  }

  // ---------------------------------------------------------------- consumer steps

  ghost predicate Complete(s: State, s': State, c: nat) {
    c !in s.consumers && s' == s.(consumers := s.consumers[c := Idle])
  }

  /** Another photo was found already, or none is wanted. */
  ghost predicate Leave(s: State, s': State, c: nat) {
    c in s.consumers && s.consumers[c].Idle? && s' == s.(consumers := s.consumers[c := Left])
  }

  ghost predicate TakeEntry(s: State, s': State, c: nat) {
    && c in s.consumers && s.consumers[c].Idle?
    && var next := if s.inFlight.Just? then Waiting(Ticket(s.inFlight.value, s.clock)) else Ready(Nothing);
       s' == s.(inFlight := Nothing, consumers := s.consumers[c := next])
  }

  /** `wait_for` returns when the event is set, or after the timeout. */
  ghost predicate StopWaiting(s: State, s': State, c: nat) {
    && c in s.consumers && s.consumers[c].Waiting?
    && var ticket := s.consumers[c].taken;
       && (ticket.producer in s.signalled || s.clock >= ticket.since + TIMEOUT)
       && s' == s.(consumers := s.consumers[c := Ready(Just(ticket))])
  }

  ghost predicate ReadCache(s: State, s': State, c: nat) {
    && c in s.consumers && s.consumers[c].Ready?
    && var ticket := s.consumers[c].ticket;
       s' == s.(frame := Nothing,
                consumers := s.consumers[c := if s.frame.Just? then Used(s.frame.value, ticket) else Grabbing(ticket)])
  }

  // ---------------------------------------------------------------- the world

  /** `on_print_start` drops a leftover frame. */
  ghost predicate NewPrint(s: State, s': State) {
    s' == s.(frame := Nothing)
  }

  ghost predicate Tick(s: State, s': State) {
    s' == s.(clock := s.clock + 1)
  }

  ghost predicate StepOf(s: State, s': State, n: nat) {
    || Moment(s, s', n, true) || Moment(s, s', n, false) || Store(s, s', n) || Exit(s, s', n)
    || Complete(s, s', n) || Leave(s, s', n) || TakeEntry(s, s', n) || StopWaiting(s, s', n) || ReadCache(s, s', n)
    || NewPrint(s, s') || Tick(s, s')
  }

  ghost predicate Next(s: State, s': State) {
    exists n :: StepOf(s, s', n)
  }

  ghost predicate IsRun(run: seq<State>) {
    run != [] && Init(run[0]) && forall i | 0 <= i < |run| - 1 :: Next(run[i], run[i + 1])
  }

  // ---------------------------------------------------------------- the invariant

  predicate HasWaited(s: State, ticket: Maybe<Ticket>) {
    ticket.Just? ==> ticket.value.producer in s.signalled || s.clock >= ticket.value.since + TIMEOUT
  }

  predicate PastWaiting(c: Consumer) {
    c.Ready? || c.Used? || c.Grabbing?
  }

  /** Frames that are in the cache or have been used. */
  ghost predicate FrameIsOut(s: State, f: nat) {
    s.frame == Just(f) || exists c | c in s.consumers :: s.consumers[c].Used? && s.consumers[c].frame == f
  }

  ghost predicate SignalsAgree(s: State) {
    && (forall c | c in s.consumers && PastWaiting(s.consumers[c]) :: HasWaited(s, s.consumers[c].ticket))
    && (forall p | p in s.producers :: p in s.signalled <==> s.producers[p].Exited?)
    && s.signalled <= s.producers.Keys
  }

  ghost predicate FramesAgree(s: State) {
    && (forall f | FrameIsOut(s, f) :: f in s.producers && (s.producers[f].Stored? || s.producers[f].Exited?))
    && (forall c | c in s.consumers && s.consumers[c].Used? :: s.frame != Just(s.consumers[c].frame))
    && (forall c, d | c in s.consumers && d in s.consumers && s.consumers[c].Used? && s.consumers[d].Used?
                      && s.consumers[c].frame == s.consumers[d].frame :: c == d)
  }

  ghost predicate Inv(s: State) {
    SignalsAgree(s) && FramesAgree(s)
  }

  lemma StepKeepsSignals(s: State, s': State, n: nat)
    requires SignalsAgree(s) && StepOf(s, s', n)
    ensures SignalsAgree(s')
  {}

  lemma StepKeepsFrames(s: State, s': State, n: nat)
    requires FramesAgree(s) && StepOf(s, s', n)
    ensures FramesAgree(s')
  {
    if ReadCache(s, s', n) {
      assert s.frame.Just? ==> FrameIsOut(s, s.frame.value);
    }
    forall f | FrameIsOut(s', f) && !FrameIsOut(s, f)
      ensures f in s'.producers && s'.producers[f].Stored?
    {}
  }

  lemma {:induction false} RunKeepsInv(run: seq<State>, i: nat)
    requires IsRun(run) && i < |run|
    ensures Inv(run[i])
  {
    if i > 0 {
      hide SignalsAgree, FramesAgree, StepOf;
      RunKeepsInv(run, i - 1);
      assert Next(run[i - 1], run[i]);
      var n :| StepOf(run[i - 1], run[i], n);
      StepKeepsSignals(run[i - 1], run[i], n);
      StepKeepsFrames(run[i - 1], run[i], n);
    } else {
      assert Inv(run[0]);
    }
  }

  // ---------------------------------------------------------------- what the handshake gives

  /** What consumer `c` holds from the moment it took an entry. */
  ghost predicate HoldsTicket(s: State, c: nat, ticket: Ticket) {
    && c in s.consumers
    && (s.consumers[c] == Waiting(ticket) || (PastWaiting(s.consumers[c]) && s.consumers[c].ticket == Just(ticket)))
  }

  lemma TicketStays(s: State, s': State, n: nat, c: nat, ticket: Ticket)
    requires StepOf(s, s', n) && HoldsTicket(s, c, ticket)
    ensures HoldsTicket(s', c, ticket)
  {}

  lemma {:induction false} TicketIsKept(run: seq<State>, i: nat, j: nat, c: nat, ticket: Ticket)
    requires IsRun(run) && i <= j < |run| && HoldsTicket(run[i], c, ticket)
    ensures HoldsTicket(run[j], c, ticket)
  {
    if i < j {
      hide HoldsTicket, StepOf;
      TicketIsKept(run, i, j - 1, c, ticket);
      assert Next(run[j - 1], run[j]);
      var n :| StepOf(run[j - 1], run[j], n);
      TicketStays(run[j - 1], run[j], n, c, ticket);
    }
  }

  /**
   A consumer that takes producer `p`'s entry neither looks into the cache nor grabs a frame of its own
   before `p` has signalled or the timeout has passed.
   */
  lemma ConsumerWaitsForProducer(run: seq<State>, i: nat, j: nat, c: nat, p: nat)
    requires IsRun(run) && i < j < |run|
    requires TakeEntry(run[i], run[i + 1], c) && run[i].inFlight == Just(p)
    requires c in run[j].consumers && PastWaiting(run[j].consumers[c])
    ensures p in run[j].signalled || run[j].clock >= run[i].clock + 20
    ensures p in run[j].signalled <==> p in run[j].producers && run[j].producers[p].Exited?
  {
    TicketIsKept(run, i + 1, j, c, Ticket(p, run[i].clock));
    RunKeepsInv(run, j);
  }

  /** A wait can end exactly when its producer has exited or twenty seconds are over since the entry was taken. */
  lemma WaitEndsExactly(run: seq<State>, i: nat, j: nat, c: nat, p: nat)
    requires IsRun(run) && i < j < |run|
    requires TakeEntry(run[i], run[i + 1], c) && run[i].inFlight == Just(p)
    requires c in run[j].consumers && run[j].consumers[c].Waiting?
    ensures (exists s' :: StopWaiting(run[j], s', c))
            <==> (p in run[j].producers && run[j].producers[p].Exited?) || run[j].clock >= run[i].clock + 20
  {
    TicketIsKept(run, i + 1, j, c, Ticket(p, run[i].clock));
    RunKeepsInv(run, j);
    hide IsRun;
    var s := run[j];
    var ready := s.(consumers := s.consumers[c := Ready(Just(s.consumers[c].taken))]);
    if p in s.signalled || s.clock >= run[i].clock + 20 {
      assert StopWaiting(s, ready, c);
    }
  }

  /** No frame is used by two consumers, and a used frame is out of the cache. */
  lemma FrameIsUsedOnce(run: seq<State>, i: nat, c: nat, d: nat)
    requires IsRun(run) && i < |run|
    requires c in run[i].consumers && d in run[i].consumers && run[i].consumers[c].Used? && run[i].consumers[d].Used?
    ensures run[i].consumers[c].frame == run[i].consumers[d].frame ==> c == d
    ensures run[i].frame != Just(run[i].consumers[c].frame)
  {
    RunKeepsInv(run, i);
  }

  // ---------------------------------------------------------------- whose entry is taken

  /** Somebody registers, or takes the entry. */
  ghost predicate ChangesEntry(s: State, s': State) {
    exists n :: Moment(s, s', n, false) || TakeEntry(s, s', n)
  }

  /** Producer `p` registers at step `a`, and nobody registers or takes the entry between then and `i`. */
  ghost predicate RegisteredLast(run: seq<State>, a: nat, i: nat, p: nat)
    requires a < i < |run|
  {
    Moment(run[a], run[a + 1], p, false) && forall k | a < k < i :: !ChangesEntry(run[k], run[k + 1])
  }

  lemma EntryStep(s: State, s': State, n: nat, p: nat)
    requires StepOf(s, s', n)
    ensures s'.inFlight == Just(p) <==> Moment(s, s', p, false) || (s.inFlight == Just(p) && !ChangesEntry(s, s'))
  {
    assert Moment(s, s', n, false) || TakeEntry(s, s', n) ==> ChangesEntry(s, s');
  }

  lemma RegisteredLastStep(run: seq<State>, a: nat, i: nat, p: nat)
    requires a < i < |run|
    ensures RegisteredLast(run, a, i, p)
            <==> if a == i - 1 then Moment(run[i - 1], run[i], p, false)
                 else RegisteredLast(run, a, i - 1, p) && !ChangesEntry(run[i - 1], run[i])
  {
    hide Moment, ChangesEntry;
  }

  /** The entry is that of the producer who registered last, if nobody has taken it since. */
  lemma {:induction false} EntryIsLastRegistered(run: seq<State>, i: nat, p: nat)
    requires IsRun(run) && i < |run|
    ensures run[i].inFlight == Just(p) <==> exists a | 0 <= a < i :: RegisteredLast(run, a, i, p)
  {
    if i > 0 {
      EntryIsLastRegistered(run, i - 1, p);
      assert Next(run[i - 1], run[i]);
      var n :| StepOf(run[i - 1], run[i], n);
      EntryStep(run[i - 1], run[i], n, p);
      hide *;
      var before := i - 1;
      RegisteredLastStep(run, before, i, p);
      if a :| 0 <= a < i && RegisteredLast(run, a, i, p) {
        RegisteredLastStep(run, a, i, p);
      }
      if a :| 0 <= a < before && RegisteredLast(run, a, before, p) {
        RegisteredLastStep(run, a, i, p);
      }
    }
  }

  /**
   In any run: a consumer that takes the entry after `p` has registered, nobody having registered or
   taken it in between, waits for `p`.
   */
  lemma RegisteredFirstIsWaitedFor(run: seq<State>, a: nat, i: nat, j: nat, p: nat, c: nat)
    requires IsRun(run) && a < i < j < |run| && RegisteredLast(run, a, i, p)
    requires TakeEntry(run[i], run[i + 1], c) && c in run[j].consumers && PastWaiting(run[j].consumers[c])
    ensures (p in run[j].producers && run[j].producers[p].Exited?) || run[j].clock >= run[i].clock + 20
  {
    EntryIsLastRegistered(run, i, p);
    ConsumerWaitsForProducer(run, i, j, c, p);
  }

  // ---------------------------------------------------------------- who is waited for

  /** The producer is between registering and exiting. */
  predicate IsWorking(s: State, p: nat) {
    p in s.producers && (s.producers[p].Working? || s.producers[p].Stored?)
  }

  /** After step `i` the consumer is past its waiting only when the producer is not at work or the timeout is over. */
  ghost predicate WaitsWhileWorking(run: seq<State>, i: nat, p: nat, c: nat)
    requires i < |run|
  {
    forall j | i < j < |run| && c in run[j].consumers && PastWaiting(run[j].consumers[c]) ::
      IsWorking(run[j], p) ==> run[j].clock >= run[i].clock + 20
  }

  ghost predicate AlwaysWaits(run: seq<State>, i: nat, p: nat, c: nat)
    requires i < |run|
  {
    forall longer: seq<State> | run <= longer && IsRun(longer) :: WaitsWhileWorking(longer, i, p, c)
  }

  lemma {:induction false} StaysAtRest(run: seq<State>, i: nat, j: nat, p: nat)
    requires IsRun(run) && i <= j < |run| && p in run[i].producers && !IsWorking(run[i], p)
    ensures p in run[j].producers && !IsWorking(run[j], p)
  {
    if i < j {
      StaysAtRest(run, i, j - 1, p);
      assert Next(run[j - 1], run[j]);
    }
  }

  /** Entries and tickets name producers that have registered. */
  ghost predicate NamesProducers(s: State) {
    && (s.inFlight.Just? ==> HasRegistered(s, s.inFlight.value))
    && forall c | c in s.consumers && s.consumers[c].Waiting? :: HasRegistered(s, s.consumers[c].taken.producer)
  }

  predicate HasRegistered(s: State, p: nat) {
    p in s.producers && !s.producers[p].Skipped?
  }

  lemma StepNamesProducers(s: State, s': State, n: nat)
    requires StepOf(s, s', n) && NamesProducers(s)
    ensures NamesProducers(s')
  {}

  lemma {:induction false} RunNamesProducers(run: seq<State>, i: nat)
    requires IsRun(run) && i < |run|
    ensures NamesProducers(run[i])
  {
    if i > 0 {
      hide StepOf, NamesProducers;
      RunNamesProducers(run, i - 1);
      assert Next(run[i - 1], run[i]);
      var n :| StepOf(run[i - 1], run[i], n);
      StepNamesProducers(run[i - 1], run[i], n);
    } else {
      assert NamesProducers(run[0]);
    }
  }

  lemma Continued(run: seq<State>, s: State, n: nat)
    requires IsRun(run) && StepOf(run[|run| - 1], s, n)
    ensures IsRun(run + [s])
  {
    hide StepOf;
    var all := run + [s];
    assert Next(run[|run| - 1], s);
    hide Next;
    forall i | 0 <= i < |all| - 1 ensures Next(all[i], all[i + 1]) {
      if i < |run| - 1 {
        assert all[i] == run[i] && all[i + 1] == run[i + 1];
      }
    }
  }

  /** A consumer that has taken the entry can get ready at once: the producer it waits for, if any, exits. */
  lemma GetsReady(run: seq<State>, c: nat) returns (longer: seq<State>)
    requires IsRun(run) && c in run[|run| - 1].consumers
    requires run[|run| - 1].consumers[c].Waiting? || run[|run| - 1].consumers[c].Ready?
    ensures run <= longer && IsRun(longer)
    ensures var before, after := run[|run| - 1], longer[|longer| - 1];
            && c in after.consumers && after.consumers[c].Ready?
            && after.clock == before.clock && after.frame == before.frame
            && after.producers.Keys == before.producers.Keys
            && forall p | p in before.producers &&
                          (before.consumers[c].Waiting? ==> p != before.consumers[c].taken.producer) ::
                 after.producers[p] == before.producers[p]
  {
    longer := run;
    var s := run[|run| - 1];
    if s.consumers[c].Waiting? {
      var ticket := s.consumers[c].taken;
      var p := ticket.producer;
      RunNamesProducers(run, |run| - 1);
      RunKeepsInv(run, |run| - 1);
      if p !in s.signalled {
        var exited := s.(producers := s.producers[p := Exited], signalled := s.signalled + {p});
        assert Exit(s, exited, p);
        Continued(longer, exited, p);
        longer := longer + [exited];
        s := exited;
      }
      var ready := s.(consumers := s.consumers[c := Ready(Just(ticket))]);
      assert StopWaiting(s, ready, c);
      Continued(longer, ready, c);
      longer := longer + [ready];
    }
  }

  lemma EntryIsWaitedFor(run: seq<State>, i: nat, p: nat, c: nat)
    requires IsRun(run) && i < |run| - 1 && TakeEntry(run[i], run[i + 1], c) && run[i].inFlight == Just(p)
    ensures WaitsWhileWorking(run, i, p, c)
  {
    hide IsRun, TakeEntry;
    forall j | i < j < |run| && c in run[j].consumers && PastWaiting(run[j].consumers[c]) && IsWorking(run[j], p)
      ensures run[j].clock >= run[i].clock + 20
    {
      ConsumerWaitsForProducer(run, i, j, c, p);
    }
  }

  lemma RestingIsNoMatter(run: seq<State>, i: nat, p: nat, c: nat)
    requires IsRun(run) && i < |run| && p in run[i].producers && !IsWorking(run[i], p)
    ensures WaitsWhileWorking(run, i, p, c)
  {
    forall j | i < j < |run| ensures !IsWorking(run[j], p) {
      StaysAtRest(run, i, j, p);
    }
  }

  /** A consumer with another entry or none can be past its waiting while the producer works. */
  lemma PassesOtherProducer(run: seq<State>, p: nat, c: nat) returns (longer: seq<State>)
    requires IsRun(run) && |run| >= 2 && TakeEntry(run[|run| - 2], run[|run| - 1], c)
    requires run[|run| - 2].inFlight != Just(p)
    requires p in run[|run| - 2].producers ==> IsWorking(run[|run| - 2], p)
    ensures run <= longer && IsRun(longer) && !WaitsWhileWorking(longer, |run| - 2, p, c)
  {
    var i := |run| - 2;
    longer := GetsReady(run, c);
    var s := longer[|longer| - 1];
    if p !in s.producers {
      var late := s.(producers := s.producers[p := Working], inFlight := Just(p));
      assert Moment(s, late, p, false);
      Continued(longer, late, p);
      longer := longer + [late];
      s := late;
    }
    var j := |longer| - 1;
    assert longer[i] == run[i] && longer[i + 1] == run[i + 1];
    assert longer[j] == s && PastWaiting(s.consumers[c]) && IsWorking(s, p) && s.clock == run[i].clock;
  }

  /**
   In any run: when a consumer takes the entry, no continuation lets it past its waiting beside the working
   producer `p` within the timeout exactly when the entry is that of `p`, or `p` has begun and is done.
   */
  lemma AlwaysWaitsExactlyWithEntry(run: seq<State>, p: nat, c: nat)
    requires IsRun(run) && |run| >= 2 && TakeEntry(run[|run| - 2], run[|run| - 1], c)
    ensures var s := run[|run| - 2];
            AlwaysWaits(run, |run| - 2, p, c) <==> s.inFlight == Just(p) || (p in s.producers && !IsWorking(s, p))
  {
    hide IsRun, TakeEntry, WaitsWhileWorking, IsWorking;
    var i := |run| - 2;
    var s := run[i];
    if s.inFlight == Just(p) || (p in s.producers && !IsWorking(s, p)) {
      forall longer: seq<State> | run <= longer && IsRun(longer) ensures WaitsWhileWorking(longer, i, p, c) {
        assert longer[i] == run[i] && longer[i + 1] == run[i + 1];
        if s.inFlight == Just(p) {
          EntryIsWaitedFor(longer, i, p, c);
        } else {
          RestingIsNoMatter(longer, i, p, c);
        }
      }
    } else {
      var longer := PassesOtherProducer(run, p, c);
    }
  }

  // ---------------------------------------------------------------- whose frame is used

  /** Somebody stores a frame, or takes it out of the cache. */
  ghost predicate ChangesFrame(s: State, s': State) {
    NewPrint(s, s') || exists n :: Store(s, s', n) || ReadCache(s, s', n)
  }

  /** Producer `p` stores at step `a`, and between then and `i` nobody stores, reads or drops a frame. */
  ghost predicate StoredLast(run: seq<State>, a: nat, i: nat, p: nat)
    requires a < i < |run|
  {
    Store(run[a], run[a + 1], p) && forall k | a < k < i :: !ChangesFrame(run[k], run[k + 1])
  }

  lemma FrameStep(s: State, s': State, n: nat, p: nat)
    requires StepOf(s, s', n)
    ensures s'.frame == Just(p) <==> Store(s, s', p) || (s.frame == Just(p) && !ChangesFrame(s, s'))
  {
    assert Store(s, s', n) || ReadCache(s, s', n) ==> ChangesFrame(s, s');
  }

  lemma StoredLastStep(run: seq<State>, a: nat, i: nat, p: nat)
    requires a < i < |run|
    ensures StoredLast(run, a, i, p)
            <==> if a == i - 1 then Store(run[i - 1], run[i], p)
                 else StoredLast(run, a, i - 1, p) && !ChangesFrame(run[i - 1], run[i])
  {
    hide Store, ChangesFrame;
  }

  lemma {:induction false} FrameIsLastStored(run: seq<State>, i: nat, p: nat)
    requires IsRun(run) && i < |run|
    ensures run[i].frame == Just(p) <==> exists a | 0 <= a < i :: StoredLast(run, a, i, p)
  {
    if i > 0 {
      FrameIsLastStored(run, i - 1, p);
      assert Next(run[i - 1], run[i]);
      var n :| StepOf(run[i - 1], run[i], n);
      FrameStep(run[i - 1], run[i], n, p);
      hide *;
      var before := i - 1;
      StoredLastStep(run, before, i, p);
      if a :| 0 <= a < i && StoredLast(run, a, i, p) {
        StoredLastStep(run, a, i, p);
      }
      if a :| 0 <= a < before && StoredLast(run, a, before, p) {
        StoredLastStep(run, a, i, p);
      }
    }
  }

  /**
   In any run: reading the cache gives the frame of `p` exactly when `p` has stored it and nobody has
   stored, read or dropped a frame since. A consumer that gets none grabs its own.
   */
  lemma ConsumerUsesStoredFrame(run: seq<State>, i: nat, p: nat, c: nat)
    requires IsRun(run) && i < |run| - 1 && ReadCache(run[i], run[i + 1], c)
    ensures run[i + 1].consumers[c].Used? || run[i + 1].consumers[c].Grabbing?
    ensures run[i + 1].consumers[c].Used? && run[i + 1].consumers[c].frame == p
            <==> exists a | 0 <= a < i :: StoredLast(run, a, i, p)
  {
    FrameIsLastStored(run, i, p);
    hide IsRun, StoredLast;
  }

  predicate HasUsed(s: State, c: nat) {
    c in s.consumers && s.consumers[c].Used?
  }

  /** Whoever has used a frame since `start` has used one of a producer that has begun since. */
  ghost predicate UsedAreNew(start: State, s: State) {
    forall c | HasUsed(s, c) && !HasUsed(start, c) :: s.consumers[c].frame !in start.producers
  }

  ghost predicate UsesNewFrames(run: seq<State>, b: nat)
    requires b < |run|
  {
    forall k | b < k < |run| :: UsedAreNew(run[b], run[k])
  }

  /** No producer is on its way to storing a frame. */
  predicate NoneWorking(s: State) {
    forall p | p in s.producers :: !s.producers[p].Working?
  }

  ghost predicate AlwaysUsesNewFrames(run: seq<State>, b: nat)
    requires b < |run|
  {
    forall longer: seq<State> | run <= longer && IsRun(longer) :: UsesNewFrames(longer, b)
  }

  /** No producer of `old` can still store, and what is in the cache or read since is not of `old`. */
  ghost predicate OldIsOver(start: State, s: State) {
    && (forall p | p in start.producers :: p in s.producers && !s.producers[p].Working?)
    && (s.frame.Just? ==> s.frame.value !in start.producers)
    && UsedAreNew(start, s)
  }

  lemma StepKeepsOldOver(start: State, s: State, s': State, n: nat)
    requires StepOf(s, s', n) && OldIsOver(start, s)
    ensures OldIsOver(start, s')
  {}

  lemma {:induction false} OldStaysOver(run: seq<State>, b: nat, k: nat)
    requires IsRun(run) && b < k < |run| && NewPrint(run[b], run[b + 1])
    requires NoneWorking(run[b])
    ensures OldIsOver(run[b], run[k])
  {
    if k == b + 1 {
      assert OldIsOver(run[b], run[k]);
    } else {
      hide StepOf, OldIsOver;
      OldStaysOver(run, b, k - 1);
      assert Next(run[k - 1], run[k]);
      var n :| StepOf(run[k - 1], run[k], n);
      StepKeepsOldOver(run[b], run[k - 1], run[k], n);
    }
  }

  /** A producer of the print before that is still at work can store its frame for the print after. */
  lemma LateFrameIsUsed(run: seq<State>, p: nat, c: nat) returns (longer: seq<State>)
    requires IsRun(run) && p in run[|run| - 1].producers && run[|run| - 1].producers[p].Working?
    requires c !in run[|run| - 1].consumers
    ensures run <= longer && IsRun(longer)
    ensures HasUsed(longer[|longer| - 1], c) && longer[|longer| - 1].consumers[c].frame == p
  {
    var s := run[|run| - 1];
    var stored := s.(producers := s.producers[p := Stored], frame := Just(p));
    var complete := stored.(consumers := stored.consumers[c := Idle]);
    var next := if s.inFlight.Just? then Waiting(Ticket(s.inFlight.value, s.clock)) else Ready(Nothing);
    var taken := complete.(inFlight := Nothing, consumers := complete.consumers[c := next]);
    assert Store(s, stored, p) && Complete(stored, complete, c) && TakeEntry(complete, taken, c);
    Continued(run, stored, p);
    Continued(run + [stored], complete, c);
    Continued(run + [stored] + [complete], taken, c);
    longer := GetsReady(run + [stored] + [complete] + [taken], c);
    var ready := longer[|longer| - 1];
    var used := ready.(frame := Nothing, consumers := ready.consumers[c := Used(p, ready.consumers[c].ticket)]);
    assert ReadCache(ready, used, c);
    Continued(longer, used, c);
    longer := longer + [used];
  }

  lemma FreshNumber(taken: set<nat>) returns (n: nat)
    ensures forall m | m in taken :: m < n
  {
    if taken == {} {
      n := 0;
    } else {
      var m :| m in taken;
      n := FreshNumber(taken - {m});
      n := if m < n then n else m + 1;
      assert taken == (taken - {m}) + {m};
    }
  }

  lemma LateFrameIsNotNew(run: seq<State>, b: nat, p: nat) returns (longer: seq<State>)
    requires IsRun(run) && |run| >= 2 && b == |run| - 2 && NewPrint(run[b], run[b + 1])
    requires p in run[b].producers && run[b].producers[p].Working?
    ensures run <= longer && IsRun(longer) && !UsesNewFrames(longer, b)
  {
    var c := FreshNumber(run[b].consumers.Keys);
    longer := LateFrameIsUsed(run, p, c);
    var k := |longer| - 1;
    assert longer[b] == run[b] && longer[b + 1] == run[b + 1];
    assert HasUsed(longer[k], c) && !HasUsed(longer[b], c);
    assert k != b && !UsedAreNew(longer[b], longer[k]);
  }

  /**
   When a new print drops the cache, no continuation uses a frame of an earlier producer exactly when none
   of them is still on its way to storing one.
   */
  lemma NewPrintUsesNewFramesExactly(run: seq<State>)
    requires IsRun(run) && |run| >= 2 && NewPrint(run[|run| - 2], run[|run| - 1])
    ensures AlwaysUsesNewFrames(run, |run| - 2) <==> NoneWorking(run[|run| - 2])
  {
    var b := |run| - 2;
    if p :| p in run[b].producers && run[b].producers[p].Working? {
      var longer := LateFrameIsNotNew(run, b, p);
    } else {
      hide IsRun, NewPrint, UsedAreNew;
      forall longer: seq<State> | run <= longer && IsRun(longer) ensures UsesNewFrames(longer, b) {
        assert longer[b] == run[b] && longer[b + 1] == run[b + 1];
        forall k | b < k < |longer| ensures UsedAreNew(run[b], longer[k]) {
          OldStaysOver(longer, b, k);
        }
      }
    }
  }

  /** A print whose producer stores after the next print has begun: the next print's consumer uses that frame. */
  lemma FrameOfEarlierPrint() returns (run: seq<State>)
    ensures IsRun(run) && |run| > 3 && Moment(run[0], run[1], 0, false) && NewPrint(run[1], run[2])
    ensures HasUsed(run[|run| - 1], 0) && run[|run| - 1].consumers[0].frame == 0 && run[2].consumers == map[]
  {
    var init := State(0, Nothing, Nothing, {}, map[], map[]);
    var begun := init.(producers := map[0 := Working], inFlight := Just(0));
    assert IsRun([init]);
    assert Moment(init, begun, 0, false) && NewPrint(begun, begun);
    Continued([init], begun, 0);
    Continued([init] + [begun], begun, 0);
    var start := [init] + [begun] + [begun];
    run := LateFrameIsUsed(start, 0, 0);
    assert run[0] == start[0] && run[1] == start[1] && run[2] == start[2];
  }

  /** Registration has to come first: a consumer that takes its entry before it grabs beside a working producer. */
  lemma UnregisteredProducerIsNotWaitedFor() returns (run: seq<State>)
    ensures IsRun(run) && |run| == 5
    ensures 0 in run[4].producers && 0 in run[4].consumers
    ensures run[4].producers[0].Working? && run[4].consumers[0] == Grabbing(Nothing) && run[4].clock == run[0].clock
  {
    var a := State(0, Nothing, Nothing, {}, map[], map[]);
    var b := a.(consumers := map[0 := Idle]);
    var c := b.(consumers := map[0 := Ready(Nothing)]);
    var d := c.(producers := map[0 := Working], inFlight := Just(0));
    var e := d.(consumers := map[0 := Grabbing(Nothing)]);
    assert Complete(a, b, 0) && TakeEntry(b, c, 0) && Moment(c, d, 0, false) && ReadCache(d, e, 0);
    assert StepOf(a, b, 0) && StepOf(b, c, 0) && StepOf(c, d, 0) && StepOf(d, e, 0);
    run := [a, b, c, d, e];
  }
}
