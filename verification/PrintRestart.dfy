/**
 How `on_print_start` decides between the archive of an expected print, an archive that is already
 there, and a new one; and what that gives when the backend restarts in the middle of a print and the
 same start is reported again. Rows are listed in the order of their creation.
 */
module PrintRestart {
  import opened PyText
  import opened Wrappers
  import opened ExpectedPrints
  import ActivePrints
  import Text

  datatype Status = Printing | Cancelled | Finished

  datatype Row = Row(
    id: int, printer: int, filename: string, printName: string, subtaskId: Maybe<string>,
    status: Status, failureReason: string, startedAt: int, createdAt: int)

  /** The database and the expectations held in memory. */
  datatype State = State(rows: seq<Row>, expected: map<Key, int>)

  /** A start message; `subtaskId` is nothing when the printer reports none, "" or "0". */
  datatype Job = Job(printer: int, filename: string, subtask: string, subtaskId: Maybe<string>)

  datatype Names = Names(filename: string, printName: string)

  /** Where a new archive comes from: a 3MF found on the printer, with the title in it, or the message alone. */
  datatype Origin = Downloaded(file: string, title: string) | Untraced

  /**
   What the rest of the world contributes to one start: the clock, the printer's setting and progress,
   the id minted at dispatch, and the origin of a new archive, or nothing if archiving fails.
   */
  datatype World = World(
    now: int, autoArchive: bool, progress: Maybe<real>, dispatchId: Maybe<string>, created: Maybe<Origin>, freshId: int)

  const STALE_SECONDS := 2 * 60 * 60

  const STALE_REASON := "Stale" + " - print likely cancelled or failed without status update"

  // ---------------------------------------------------------------- looking rows up

  /** The last row with the given property: the newest one. */
  function Newest(rows: seq<Row>, p: Row -> bool): (i: int)
    ensures -1 <= i < |rows|
    ensures i >= 0 ==> p(rows[i])
    ensures forall j | i < j < |rows| :: !p(rows[j])
  {
    if rows == [] then -1
    else if p(rows[|rows| - 1]) then |rows| - 1
    else Newest(rows[..|rows| - 1], p)
  }

  predicate HasId(job: Job, row: Row) {
    && row.printer == job.printer && job.subtaskId.Just? && row.subtaskId == job.subtaskId
    && (row.status.Printing? || row.status.Cancelled?)
  }

  predicate IsLive(row: Row) {
    row.status.Printing? || "Stale" <= row.failureReason
  }

  function CheckName(job: Job): string {
    if job.subtask != "" then job.subtask
    else Without(Without(AfterLastSlash(job.filename), ".gcode"), ".3mf")
  }

  predicate HasName(job: Job, row: Row) {
    && row.printer == job.printer && row.status.Printing?
    && (row.printName == CheckName(job)
        || row.filename == CheckName(job) + ".3mf" || row.filename == CheckName(job) + ".gcode.3mf")
  }

  /** First by subtask id, if that row is live; otherwise by name. */
  function ExistingRow(rows: seq<Row>, job: Job): (i: int)
    ensures -1 <= i < |rows|
  {
    var byId := Newest(rows, row => HasId(job, row));
    if byId >= 0 && IsLive(rows[byId]) then byId
    else Newest(rows, row => HasName(job, row))
  }

  predicate LooksStale(row: Row, world: World) {
    world.progress.Just? && world.progress.value < 1.0 && world.now - row.createdAt > STALE_SECONDS
  }

  // ---------------------------------------------------------------- the names of a new archive

  /** `s.replace(" ", "_")` */
  function Underscored(s: string): string {
    seq(|s|, i requires 0 <= i < |s| => if s[i] == ' ' then '_' else s[i])
  }

  /** The names a 3MF is looked for under, without those that differ only in spaces. */
  function PlainCandidates(job: Job): seq<string> {
    (if job.subtask == "" then [] else [job.subtask + ".gcode.3mf", job.subtask + ".3mf"])
    + if job.filename == "" then []
      else
        var fname := AfterLastSlash(job.filename);
        if EndsWith(fname, ".3mf") then [fname]
        else
          var base := if EndsWith(fname, ".gcode") then DropEnd(fname, 6) else fname;
          [base + ".gcode.3mf", base + ".3mf"]
  }

  predicate IsCandidate(job: Job, file: string) {
    exists name | name in PlainCandidates(job) :: file == name || file == Underscored(name)
  }

  /** A file of the printer's directories is taken when its name contains the search term. */
  predicate IsListed(job: Job, file: string) {
    var sought := Text.LowerAll(if job.subtask != "" then job.subtask else job.filename);
    var term := Without(Without(sought, ".gcode"), ".3mf");
    EndsWith(file, ".3mf") && Text.Contains(Underscored(Text.LowerAll(file)), Underscored(term))
  }

  predicate CanCreate(job: Job, origin: Origin) {
    origin.Downloaded? ==> IsCandidate(job, origin.file) || IsListed(job, origin.file)
  }

  /** `resolve_display_stem`: a file name without the extension of a print file, or else without its last suffix. */
  function DisplayStem(name: string): string {
    var lower := Text.LowerAll(name);
    if EndsWith(lower, ".gcode.3mf") then DropEnd(name, 10)
    else if EndsWith(lower, ".3mf") then DropEnd(name, 4)
    else if EndsWith(lower, ".gcode") then DropEnd(name, 6)
    else Stem(name)
  }

  /** The title in the 3MF, or else its display name; without a 3MF the cleaned message. */
  function NamesOf(job: Job, origin: Origin): Names {
    match origin
    case Downloaded(file, title) =>
      var name := AfterLastSlash(file);
      Names(name, if title != "" then title else DisplayStem(name))
    case Untraced =>
      var printName := ActivePrints.PrintName(job.filename, job.subtask);
      Names(if job.filename != "" then job.filename else printName + ".3mf", printName)
  }

  // ---------------------------------------------------------------- one start

  function Promote(row: Row, job: Job, world: World): Row {
    var id := if job.subtaskId.Just? then job.subtaskId else world.dispatchId;
    row.(status := Printing, startedAt := world.now, printer := job.printer,
         subtaskId := if id.Just? then id else row.subtaskId)
  }

  function Create(rows: seq<Row>, job: Job, world: World): seq<Row> {
    if world.created.Nothing? then rows
    else
      var names := NamesOf(job, world.created.value);
      rows + [Row(world.freshId, job.printer, names.filename, names.printName, job.subtaskId, Printing, "",
                  world.now, world.now)]
  }

  function Resume(rows: seq<Row>, i: nat, job: Job, world: World): seq<Row>
    requires i < |rows|
  {
    var row := rows[i];
    if job.subtaskId.Just? && row.subtaskId == job.subtaskId then
      rows[i := if row.status.Cancelled? then row.(status := Printing, failureReason := "") else row]
    else if LooksStale(row, world) then
      Create(rows[i := row.(status := Cancelled, failureReason := STALE_REASON)], job, world)
    else rows[i := row.(subtaskId := if job.subtaskId.Just? then job.subtaskId else row.subtaskId)]
  }

  predicate IsInternal(job: Job) {
    "/usr/" <= job.filename || (job.filename == "" && job.subtask == "")
  }

  function Keys(job: Job): seq<Key> {
    ProbedKeys(job.printer, job.filename, job.subtask)
  }

  predicate HasAny(expected: map<Key, int>, keys: seq<Key>) {
    exists k | k in keys :: k in expected
  }

  function Handle(s: State, job: Job, world: World): State {
    if IsInternal(job) || (!world.autoArchive && !HasAny(s.expected, Keys(job))) then s
    else
      var archive := FirstMatch(s.expected, Keys(job));
      var taken := s.(expected := DropAll(s.expected, Keys(job)));
      if archive != 0 then
        var i := Newest(s.rows, (row: Row) => row.id == archive);
        if i < 0 then taken else taken.(rows := s.rows[i := Promote(s.rows[i], job, world)])
      else
        var i := ExistingRow(s.rows, job);
        taken.(rows := if i >= 0 then Resume(s.rows, i, job, world) else Create(s.rows, job, world))
  }

  // ---------------------------------------------------------------- the callback

  class Backend {
    var rows: seq<Row>
    var expected: map<Key, int>

    ghost function AsState(): State
      reads this
    {
      State(rows, expected)
    }

    constructor (rows: seq<Row>)
      ensures AsState() == State(rows, map[])
    {
      this.rows, expected := rows, map[];
    }

    /** A restart keeps the database and forgets everything else. */
    method Restart()
      modifies this
      ensures AsState() == old(AsState()).(expected := map[])
    {
      expected := map[];
    }

    method OnPrintStart(job: Job, world: World)
      modifies this
      ensures AsState() == Handle(old(AsState()), job, world)
    {
      hide ProbedKeys;
      var keys := Keys(job);
      if IsInternal(job) {
        return;
      }
      var hasExpected := exists k | k in keys :: k in expected;
      if !world.autoArchive && !hasExpected {
        return;
      }
      var archive := FirstMatch(expected, keys);
      expected := DropAll(expected, keys);
      if archive != 0 {
        var i := Newest(rows, (row: Row) => row.id == archive);
        if i >= 0 {
          rows := rows[i := Promote(rows[i], job, world)];
        }
        return;
      }
      var i := ExistingRow(rows, job);
      if i >= 0 {
        var row := rows[i];
        if job.subtaskId.Just? && row.subtaskId == job.subtaskId {
          if row.status.Cancelled? {
            rows := rows[i := row.(status := Printing, failureReason := "")];
          }
          return;
        }
        if !LooksStale(row, world) {
          if job.subtaskId.Just? {
            rows := rows[i := row.(subtaskId := job.subtaskId)];
          }
          return;
        }
        rows := rows[i := row.(status := Cancelled, failureReason := STALE_REASON)];
      }
      rows := Create(rows, job, world);
    }
  }

  // ---------------------------------------------------------------- repeated starts

  /** Either the same start is reported again or the backend restarts. */
  datatype Event = Again(world: World) | Restarted

  function Step(s: State, job: Job, event: Event): State {
    match event
    case Again(world) => Handle(s, job, world)
    case Restarted => s.(expected := map[])
  }

  function Run(s: State, job: Job, events: seq<Event>): State {
    if events == [] then s
    else Step(Run(s, job, events[..|events| - 1]), job, events[|events| - 1])
  }

  /** Nothing is expected for the job, and its id leads to a row that is printing. */
  ghost predicate Settled(s: State, job: Job) {
    && !HasAny(s.expected, Keys(job))
    && var i := Newest(s.rows, row => HasId(job, row));
       i >= 0 && s.rows[i].status.Printing?
  }

  lemma {:induction false} NoMatchWithoutKeys(expected: map<Key, int>, keys: seq<Key>)
    requires forall k | k in keys :: k !in expected
    ensures FirstMatch(expected, keys) == 0 && DropAll(expected, keys) == expected
  {
    if keys != [] {
      NoMatchWithoutKeys(expected, keys[1..]);
    }
  }

  /** Once settled, neither further starts nor restarts change any row: `started_at` included. */
  lemma SettledStaysAsItIs(s: State, job: Job, event: Event)
    requires Settled(s, job)
    ensures Step(s, job, event).rows == s.rows && Settled(Step(s, job, event), job)
  {
    hide ProbedKeys;
    if event.Again? {
      NoMatchWithoutKeys(s.expected, Keys(job));
    }
  }

  lemma {:induction false} SettledRuns(s: State, job: Job, events: seq<Event>)
    requires Settled(s, job)
    ensures Run(s, job, events).rows == s.rows && Settled(Run(s, job, events), job)
  {
    if events != [] {
      hide Settled, Step;
      SettledRuns(s, job, events[..|events| - 1]);
      SettledStaysAsItIs(Run(s, job, events[..|events| - 1]), job, events[|events| - 1]);
    }
  }

  lemma TakenKeysAreGone(expected: map<Key, int>, keys: seq<Key>)
    ensures !HasAny(DropAll(expected, keys), keys)
  {}

  /** A start adds a row only at the end, for the job, and then the job is settled. */
  lemma StartAddsAtMostOne(s: State, job: Job, world: World)
    requires job.subtaskId.Just?
    ensures var after := Handle(s, job, world);
            |after.rows| == |s.rows| || (|after.rows| == |s.rows| + 1 && Settled(after, job))
  {
    hide ProbedKeys;
    TakenKeysAreGone(s.expected, Keys(job));
  }

  /**
   For a job with a subtask id, whatever rows there are and however often its start is reported with
   restarts in between, at most one archive row is added.
   */
  lemma {:induction false} RestartsAddAtMostOneRow(s: State, job: Job, events: seq<Event>)
    requires job.subtaskId.Just?
    ensures var after := Run(s, job, events);
            |after.rows| == |s.rows| || (|after.rows| == |s.rows| + 1 && Settled(after, job))
  {
    if events != [] {
      hide Settled, Handle;
      var before, event := Run(s, job, events[..|events| - 1]), events[|events| - 1];
      RestartsAddAtMostOneRow(s, job, events[..|events| - 1]);
      if |before.rows| == |s.rows| {
        if event.Again? {
          StartAddsAtMostOne(before, job, event.world);
        }
      } else {
        SettledStaysAsItIs(before, job, event);
      }
    }
  }

  // ---------------------------------------------------------------- when a start settles its job

  /** Row `i` is on the job's printer under the job's id. */
  predicate Carries(job: Job, row: Row) {
    row.printer == job.printer && row.subtaskId == job.subtaskId
  }

  /** The id belongs to this job alone: to the expected row, or to a single live one. */
  ghost predicate OwnsId(s: State, job: Job) {
    var archive := FirstMatch(s.expected, Keys(job));
    && (forall i, j | 0 <= i < |s.rows| && 0 <= j < |s.rows| && s.rows[i].id == s.rows[j].id :: i == j)
    && (archive != 0 ==>
          && (exists i | 0 <= i < |s.rows| :: s.rows[i].id == archive)
          && forall i | 0 <= i < |s.rows| && Carries(job, s.rows[i]) :: s.rows[i].id == archive)
    && (archive == 0 ==>
          && (forall i | 0 <= i < |s.rows| && Carries(job, s.rows[i]) :: HasId(job, s.rows[i]) && IsLive(s.rows[i]))
          && forall i, j | 0 <= i < |s.rows| && 0 <= j < |s.rows|
                           && Carries(job, s.rows[i]) && Carries(job, s.rows[j]) :: i == j)
  }

  predicate IsHandled(s: State, job: Job, world: World) {
    !IsInternal(job) && (world.autoArchive || HasAny(s.expected, Keys(job)))
  }

  ghost predicate HasArchive(s: State, job: Job) {
    exists row | row in s.rows :: HasId(job, row) && row.status.Printing?
  }

  lemma OwnedStartSettles(s: State, job: Job, world: World)
    requires job.subtaskId.Just? && OwnsId(s, job) && IsHandled(s, job, world)
    requires HasArchive(Handle(s, job, world), job)
    ensures Settled(Handle(s, job, world), job)
  {
    hide ProbedKeys;
    TakenKeysAreGone(s.expected, Keys(job));
  }

  /**
   When the id belongs to the job alone, the first start that leaves it an archive has the last word:
   no later start or restart changes any row, so the archive keeps its `started_at`.
   */
  lemma RestartsKeepTheArchive(s: State, job: Job, world: World, events: seq<Event>)
    requires job.subtaskId.Just? && OwnsId(s, job) && IsHandled(s, job, world)
    requires HasArchive(Handle(s, job, world), job)
    ensures Run(Handle(s, job, world), job, events).rows == Handle(s, job, world).rows
  {
    OwnedStartSettles(s, job, world);
    SettledRuns(Handle(s, job, world), job, events);
  }

  // ---------------------------------------------------------------- a row given up as stale

  /** The id leads to a row that was cancelled as stale. */
  predicate IsGivenUp(s: State, job: Job) {
    var i := Newest(s.rows, row => HasId(job, row));
    i >= 0 && s.rows[i].status.Cancelled? && IsLive(s.rows[i])
  }

  /** The rows with that row printing again, otherwise as it was. */
  function Revived(s: State, job: Job): seq<Row>
    requires IsGivenUp(s, job)
  {
    var i := Newest(s.rows, row => HasId(job, row));
    s.rows[i := s.rows[i].(status := Printing, failureReason := "")]
  }

  lemma RevivedIsNewest(s: State, job: Job)
    requires IsGivenUp(s, job)
    ensures Newest(Revived(s, job), row => HasId(job, row)) == Newest(s.rows, row => HasId(job, row))
  {
    var i := Newest(s.rows, row => HasId(job, row));
    var after := Revived(s, job);
    assert HasId(job, after[i]);
    assert forall j | i < j < |after| :: after[j] == s.rows[j];
  }

  lemma StaleRowIsRevived(s: State, job: Job, world: World)
    requires IsGivenUp(s, job) && IsHandled(s, job, world) && FirstMatch(s.expected, Keys(job)) == 0
    ensures Handle(s, job, world).rows == Revived(s, job) && Settled(Handle(s, job, world), job)
  {
    hide ProbedKeys;
    TakenKeysAreGone(s.expected, Keys(job));
    RevivedIsNewest(s, job);
  }

  /** A start that is handled: archiving is on, or the print is expected and the backend has not restarted. */
  predicate Counts(expecting: bool, events: seq<Event>, n: nat)
    requires n < |events|
  {
    && events[n].Again?
    && (events[n].world.autoArchive || (expecting && forall m | 0 <= m < n :: !events[m].Restarted?))
  }

  ghost predicate SomeCounts(expecting: bool, events: seq<Event>) {
    exists n | 0 <= n < |events| :: Counts(expecting, events, n)
  }

  lemma SomeCountsSnoc(expecting: bool, front: seq<Event>, event: Event)
    ensures SomeCounts(expecting, front + [event])
            <==> SomeCounts(expecting, front) || Counts(expecting, front + [event], |front|)
  {
    var all := front + [event];
    forall n | 0 <= n < |front| ensures Counts(expecting, front, n) <==> Counts(expecting, all, n) {
      assert forall m | 0 <= m <= n :: all[m] == front[m];
    }
    if SomeCounts(expecting, front) {
      var n :| 0 <= n < |front| && Counts(expecting, front, n);
      assert Counts(expecting, all, n);
    }
  }

  /** Before any start is handled only a restart changes anything: it forgets what was expected. */
  function Untouched(s: State, events: seq<Event>): State {
    if Restarted in events then s.(expected := map[]) else s
  }

  lemma UntouchedStep(s: State, job: Job, front: seq<Event>, event: Event)
    requires !IsInternal(job) && IsGivenUp(s, job) && FirstMatch(s.expected, Keys(job)) == 0
    ensures var before, after := Untouched(s, front), Step(Untouched(s, front), job, event);
            if Counts(HasAny(s.expected, Keys(job)), front + [event], |front|)
            then after.rows == Revived(s, job) && Settled(after, job)
            else after == Untouched(s, front + [event])
  {
    hide ProbedKeys, Settled, Revived;
    var before, expecting := Untouched(s, front), HasAny(s.expected, Keys(job));
    assert forall m | 0 <= m < |front| :: (front + [event])[m] == front[m];
    if event.Again? {
      if Restarted in front {
        NoMatchWithoutKeys(map[], Keys(job));
      }
      if IsHandled(before, job, event.world) {
        StaleRowIsRevived(before, job, event.world);
        assert Revived(before, job) == Revived(s, job) by {
          SameRows(s, before, job);
        }
      }
    }
  }

  lemma SameRows(s: State, s': State, job: Job)
    requires IsGivenUp(s, job) && s'.rows == s.rows
    ensures IsGivenUp(s', job) && Revived(s', job) == Revived(s, job)
  {}

  /**
   Any starts and restarts after a row was given up as stale: as soon as one start is handled the row prints
   again, with its `started_at`, and no start adds a row or changes another one.
   */
  lemma {:induction false} StaleRowStaysRevived(s: State, job: Job, events: seq<Event>)
    requires !IsInternal(job) && IsGivenUp(s, job) && FirstMatch(s.expected, Keys(job)) == 0
    ensures Run(s, job, events).rows
            == if SomeCounts(HasAny(s.expected, Keys(job)), events) then Revived(s, job) else s.rows
    ensures if SomeCounts(HasAny(s.expected, Keys(job)), events) then Settled(Run(s, job, events), job)
            else Run(s, job, events) == Untouched(s, events)
  {
    if events != [] {
      hide Settled, Step, Revived, IsGivenUp, Keys, HasAny, Counts, SomeCounts, Untouched;
      var front, event := events[..|events| - 1], events[|events| - 1];
      assert events == front + [event];
      StaleRowStaysRevived(s, job, front);
      SomeCountsSnoc(HasAny(s.expected, Keys(job)), front, event);
      if SomeCounts(HasAny(s.expected, Keys(job)), front) {
        SettledStaysAsItIs(Run(s, job, front), job, event);
      } else {
        UntouchedStep(s, job, front, event);
        UntouchedRows(s, events);
      }
    }
  }

  lemma UntouchedRows(s: State, events: seq<Event>)
    ensures Untouched(s, events).rows == s.rows
  {}

  // ---------------------------------------------------------------- an expected print

  /** Row `i` is the archive that the start was expected for: no other row has its identifier. */
  ghost predicate IsExpectedRow(s: State, job: Job, i: nat)
    requires i < |s.rows|
  {
    && FirstMatch(s.expected, Keys(job)) != 0
    && s.rows[i].id == FirstMatch(s.expected, Keys(job))
    && forall j | 0 <= j < |s.rows| && j != i :: s.rows[j].id != s.rows[i].id
  }

  /**
   An expected start sets its archive's row to printing on the job's printer, from now on, under the job's
   id or else the one minted at dispatch; nothing else in that row changes, no other row does, and the
   expectation is over.
   */
  lemma ExpectedRowPrints(s: State, job: Job, world: World, i: nat)
    requires IsHandled(s, job, world) && i < |s.rows| && IsExpectedRow(s, job, i)
    ensures var before, after := s.rows[i], Handle(s, job, world).rows;
            && |after| == |s.rows| && (forall j | 0 <= j < |after| && j != i :: after[j] == s.rows[j])
            && after[i].status == Printing && after[i].printer == job.printer && after[i].startedAt == world.now
            && after[i].subtaskId == (if job.subtaskId.Just? then job.subtaskId
                                      else if world.dispatchId.Just? then world.dispatchId else before.subtaskId)
            && after[i].id == before.id && after[i].filename == before.filename
            && after[i].printName == before.printName && after[i].failureReason == before.failureReason
            && after[i].createdAt == before.createdAt
    ensures forall k | k in Keys(job) :: k !in Handle(s, job, world).expected
    ensures forall k | k !in Keys(job) :: k in Handle(s, job, world).expected <==> k in s.expected
    ensures job.subtaskId.Just? ==> HasArchive(Handle(s, job, world), job)
  {
    hide ProbedKeys;
    var archive, after := s.rows[i].id, Handle(s, job, world).rows;
    assert Newest(s.rows, (row: Row) => row.id == archive) == i;
    assert after[i] in after;
  }

  /** A start of the job comes back to a row it leads to: by its id, or by its name to a row with its id. */
  predicate IsAnchored(rows: seq<Row>, job: Job) {
    var byId, byName := Newest(rows, row => HasId(job, row)), Newest(rows, row => HasName(job, row));
    || (byId >= 0 && IsLive(rows[byId]))
    || (byName >= 0 && rows[byName].subtaskId == job.subtaskId)
  }

  /** Nothing is expected for the job, and it is anchored. */
  ghost predicate Rests(s: State, job: Job) {
    !HasAny(s.expected, Keys(job)) && IsAnchored(s.rows, job)
  }

  lemma RestsOn(s: State, job: Job, event: Event)
    requires job.subtaskId.Just? && Rests(s, job)
    ensures |Step(s, job, event).rows| == |s.rows| && Rests(Step(s, job, event), job)
  {
    hide ProbedKeys, CheckName;
    if event.Again? && IsHandled(s, job, event.world) {
      NoMatchWithoutKeys(s.expected, Keys(job));
      if IsGivenUp(s, job) {
        StaleRowIsRevived(s, job, event.world);
      } else {
        assert Step(s, job, event).rows == s.rows;
      }
    }
  }

  lemma {:induction false} RestingRuns(s: State, job: Job, events: seq<Event>)
    requires job.subtaskId.Just? && Rests(s, job)
    ensures |Run(s, job, events).rows| == |s.rows| && Rests(Run(s, job, events), job)
  {
    if events != [] {
      hide Rests, Step;
      RestingRuns(s, job, events[..|events| - 1]);
      RestsOn(Run(s, job, events[..|events| - 1]), job, events[|events| - 1]);
    }
  }

  /** A start that finds no row to come back to makes one, or gives an old one up and makes one. */
  lemma UnanchoredStartAdds(s: State, job: Job) returns (world: World)
    requires job.subtaskId.Just? && !IsInternal(job) && !HasAny(s.expected, Keys(job)) && !IsAnchored(s.rows, job)
    ensures world.created == Just(Untraced) && |Handle(s, job, world).rows| == |s.rows| + 1
  {
    hide ProbedKeys, CheckName, NamesOf;
    NoMatchWithoutKeys(s.expected, Keys(job));
    var byName := Newest(s.rows, row => HasName(job, row));
    var now := if byName >= 0 then s.rows[byName].createdAt + STALE_SECONDS + 1 else 0;
    world := World(now, true, Just(0.0), Nothing, Just(Untraced), 0);
  }

  /** However often the job's start is reported again, with restarts in between, no row is added. */
  ghost predicate AddsNoRow(s: State, job: Job) {
    forall events :: |Run(s, job, events).rows| == |s.rows|
  }

  /**
   After an expected start with an id no further start and no restart adds a row if and only if the job is
   anchored; it is when no newer row of the printer carries the id.
   */
  lemma ExpectedPrintAddsNoRowExactly(s: State, job: Job, world: World, i: nat)
    requires job.subtaskId.Just? && IsHandled(s, job, world) && i < |s.rows| && IsExpectedRow(s, job, i)
    ensures AddsNoRow(Handle(s, job, world), job) <==> IsAnchored(Handle(s, job, world).rows, job)
    ensures (forall j | i < j < |s.rows| :: !Carries(job, s.rows[j])) ==> AddsNoRow(Handle(s, job, world), job)
  {
    var after := Handle(s, job, world);
    ExpectedRowPrints(s, job, world, i);
    if forall j | i < j < |s.rows| :: !Carries(job, s.rows[j]) {
      NewestCarries(after.rows, job, i);
    }
    hide Handle, Keys, IsAnchored, IsExpectedRow;
    if IsAnchored(after.rows, job) {
      forall events ensures |Run(after, job, events).rows| == |after.rows| {
        RestingRuns(after, job, events);
      }
    } else {
      var again := UnanchoredStartAdds(after, job);
      OneStart(after, job, again);
    }
  }

  lemma OneStart(s: State, job: Job, world: World)
    ensures Run(s, job, [Again(world)]) == Handle(s, job, world)
  {
    assert [Again(world)][..0] == [];
  }

  lemma NewestCarries(rows: seq<Row>, job: Job, i: nat)
    requires job.subtaskId.Just? && i < |rows| && Carries(job, rows[i]) && rows[i].status.Printing?
    requires forall j | i < j < |rows| :: !Carries(job, rows[j])
    ensures IsAnchored(rows, job)
  {
    assert HasId(job, rows[i]);
  }

  // ---------------------------------------------------------------- a print that is not expected

  /** The start is of a file of the printer itself, or of nothing. */
  ghost predicate IsOwn(job: Job) {
    (exists rest :: job.filename == "/usr/" + rest) || (job.filename == "" && job.subtask == "")
  }

  /** A start of the printer's own is ignored, and so is one that is not expected when archiving is off. */
  lemma IgnoredExactly(s: State, job: Job, world: World)
    ensures IsOwn(job) || (!world.autoArchive && forall k | k in Keys(job) :: k !in s.expected) ==>
              Handle(s, job, world) == s
    ensures !IsOwn(job) && (exists k | k in Keys(job) :: k in s.expected) ==>
              forall k | k in Keys(job) :: k !in Handle(s, job, world).expected
    ensures !IsOwn(job) <==> !IsInternal(job)
  {
    hide ProbedKeys, FirstMatch, ExistingRow;
    if "/usr/" <= job.filename {
      assert job.filename == "/usr/" + job.filename[5..];
    }
    if rest :| job.filename == "/usr/" + rest {
      assert "/usr/" <= job.filename;
    }
  }

  /** A row leads to its job by its id while it prints, or after it was cancelled as stale. */
  lemma LiveExactly(row: Row)
    ensures IsLive(row) <==> row.status.Printing? || exists rest :: row.failureReason == "Stale" + rest
    ensures IsLive(row.(failureReason := STALE_REASON))
  {
    if "Stale" <= row.failureReason {
      assert row.failureReason == "Stale" + row.failureReason[5..];
    }
    if rest :| row.failureReason == "Stale" + rest {
      assert "Stale" <= row.failureReason;
    }
  }

  /** The id leads to no row: the newest row with it, if any, is not live. */
  predicate LeadsNowhere(rows: seq<Row>, job: Job) {
    var i := Newest(rows, row => HasId(job, row));
    i < 0 || !IsLive(rows[i])
  }

  /** The id leads to row `i`: it prints or was given up, and later rows with the id, if any, are finished. */
  ghost predicate LeadsTo(rows: seq<Row>, job: Job, i: nat) {
    && job.subtaskId.Just? && i < |rows| && Carries(job, rows[i])
    && (rows[i].status == Printing
        || (rows[i].status == Cancelled && exists rest :: rows[i].failureReason == "Stale" + rest))
    && forall j | i < j < |rows| && Carries(job, rows[j]) :: rows[j].status == Finished
  }

  lemma LedToIsNewest(rows: seq<Row>, job: Job, i: nat)
    requires LeadsTo(rows, job, i)
    ensures Newest(rows, row => HasId(job, row)) == i && IsLive(rows[i])
  {
    LiveExactly(rows[i]);
    hide IsLive;
    assert HasId(job, rows[i]);
  }

  lemma LeadsNowhereExactly(rows: seq<Row>, job: Job)
    ensures LeadsNowhere(rows, job) <==> forall i: nat :: !LeadsTo(rows, job, i)
  {
    forall i: nat | LeadsTo(rows, job, i) ensures !LeadsNowhere(rows, job) {
      LedToIsNewest(rows, job, i);
    }
    var i := Newest(rows, row => HasId(job, row));
    if i >= 0 && IsLive(rows[i]) {
      LiveExactly(rows[i]);
      assert LeadsTo(rows, job, i);
    }
  }

  /** The row that the id leads to prints, with all it had but the reason it was given up for. */
  lemma LedToRowPrints(s: State, job: Job, world: World, i: nat)
    requires IsHandled(s, job, world) && FirstMatch(s.expected, Keys(job)) == 0 && LeadsTo(s.rows, job, i)
    ensures Handle(s, job, world).rows
            == if s.rows[i].status == Printing then s.rows
               else s.rows[i := s.rows[i].(status := Printing, failureReason := "")]
  {
    LedToIsNewest(s.rows, job, i);
    hide ProbedKeys, IsLive;
    assert ExistingRow(s.rows, job) == i;
  }

  /** The row prints on the job's printer under one of the names that the job is looked for by. */
  predicate IsNamed(job: Job, row: Row) {
    row.printer == job.printer && row.status == Printing && AreFound(job, Names(row.filename, row.printName))
  }

  /** What a start stores when it makes an archive. */
  predicate IsNewRow(row: Row, job: Job, world: World)
    requires world.created.Just?
  {
    && row.id == world.freshId && row.printer == job.printer && row.subtaskId == job.subtaskId
    && Names(row.filename, row.printName) == NamesOf(job, world.created.value)
    && row.status == Printing && row.failureReason == "" && row.startedAt == world.now && row.createdAt == world.now
  }

  /** `after` has one more row than `before` if an archive can be made, at the end. */
  predicate AddsNewRow(before: nat, after: seq<Row>, job: Job, world: World) {
    if world.created.Nothing? then |after| == before
    else |after| == before + 1 && IsNewRow(after[before], job, world)
  }

  lemma NamedIsFound(s: State, job: Job, i: nat)
    requires LeadsNowhere(s.rows, job) && i < |s.rows| && IsNamed(job, s.rows[i])
    requires forall j | i < j < |s.rows| :: !IsNamed(job, s.rows[j])
    ensures ExistingRow(s.rows, job) == i
  {
    assert forall row :: HasName(job, row) <==> IsNamed(job, row);
  }

  /**
   An unexpected start whose id leads nowhere takes up the newest row under its name: the row gets the job's
   id, if there is one. Only if it is over two hours old and the printer has not begun, and the row does not
   have that id already, is it given up, and a new row made.
   */
  lemma NamedRowIsTakenUp(s: State, job: Job, world: World, i: nat)
    requires IsHandled(s, job, world) && FirstMatch(s.expected, Keys(job)) == 0
    requires LeadsNowhere(s.rows, job) && i < |s.rows| && IsNamed(job, s.rows[i])
    requires forall j | i < j < |s.rows| :: !IsNamed(job, s.rows[j])
    ensures var row, after := s.rows[i], Handle(s, job, world).rows;
            var hasId := job.subtaskId.Just? && row.subtaskId == job.subtaskId;
            var givenUp := !hasId && world.progress.Just? && world.progress.value < 1.0
                           && world.now - row.createdAt > 7200;
            && |after| >= |s.rows| && (forall j | 0 <= j < |s.rows| && j != i :: after[j] == s.rows[j])
            && if givenUp then
                 && after[i] == row.(status := Cancelled, failureReason := after[i].failureReason)
                 && after[i].failureReason == "Stale" + " - print likely cancelled or failed without status update"
                 && IsLive(after[i])
                 && AddsNewRow(|s.rows|, after, job, world)
               else
                 && after[i] == row.(subtaskId := if job.subtaskId.Just? then job.subtaskId else row.subtaskId)
                 && |after| == |s.rows|
  {
    NamedIsFound(s, job, i);
    LiveExactly(s.rows[i]);
    hide ProbedKeys, ExistingRow, LeadsNowhere, AreFound, NamesOf, IsLive;
    var row := s.rows[i];
    assert LooksStale(row, world) <==> world.progress.Just? && world.progress.value < 1.0
                                       && world.now - row.createdAt > 7200;
    GivenUpIsLive(row);
  }

  lemma GivenUpIsLive(row: Row)
    ensures IsLive(row.(status := Cancelled, failureReason := STALE_REASON))
  {
    LiveExactly(row.(status := Cancelled));
  }

  /** An unexpected start that leads to no row makes one. */
  lemma NewRowIsMade(s: State, job: Job, world: World)
    requires IsHandled(s, job, world) && FirstMatch(s.expected, Keys(job)) == 0
    requires LeadsNowhere(s.rows, job) && forall row | row in s.rows :: !IsNamed(job, row)
    ensures var after := Handle(s, job, world).rows;
            && |s.rows| <= |after| && after[..|s.rows|] == s.rows && AddsNewRow(|s.rows|, after, job, world)
  {
    assert forall row :: HasName(job, row) <==> IsNamed(job, row);
    NothingFound(s.rows, row => HasName(job, row));
    assert ExistingRow(s.rows, job) == -1;
    hide ProbedKeys, ExistingRow, LeadsNowhere, IsNamed, NamesOf;
  }

  /** An expected archive that has no row any more is taken off the list, and no row changes. */
  lemma ArchiveWithoutRow(s: State, job: Job, world: World)
    requires IsHandled(s, job, world) && FirstMatch(s.expected, Keys(job)) != 0
    requires forall row | row in s.rows :: row.id != FirstMatch(s.expected, Keys(job))
    ensures Handle(s, job, world).rows == s.rows
    ensures forall k | k in Keys(job) :: k !in Handle(s, job, world).expected
  {
    hide ProbedKeys, FirstMatch;
    NothingFound(s.rows, (row: Row) => row.id == FirstMatch(s.expected, Keys(job)));
  }

  // ---------------------------------------------------------------- without an id

  lemma NothingFound(rows: seq<Row>, p: Row -> bool)
    requires forall row | row in rows :: !p(row)
    ensures Newest(rows, p) == -1
  {
    assert forall j | 0 <= j < |rows| :: rows[j] in rows;
  }

  /** The lookup by name would find an archive with these names. */
  predicate AreFound(job: Job, names: Names) {
    || names.printName == CheckName(job)
    || names.filename == CheckName(job) + ".3mf" || names.filename == CheckName(job) + ".gcode.3mf"
  }

  lemma EmptyIsFilled(job: Job, world: World)
    requires job.subtaskId.Nothing? && !IsInternal(job) && world.autoArchive
    ensures Handle(State([], map[]), job, world) == State(Create([], job, world), map[])
  {
    hide ProbedKeys, Create;
    NoMatchWithoutKeys(map[], Keys(job));
    NothingFound([], r => HasId(job, r));
    NothingFound([], r => HasName(job, r));
  }

  /** A second start meets the first one's row: it resumes it, or gives it up, or does not find it. */
  lemma SecondStart(job: Job, row: Row, world: World)
    requires job.subtaskId.Nothing? && !IsInternal(job) && world.autoArchive && world.created.Just?
    requires row.printer == job.printer && row.status.Printing? && row.subtaskId.Nothing?
    ensures var found := AreFound(job, Names(row.filename, row.printName));
            |Handle(State([row], map[]), job, world).rows| == if found && !LooksStale(row, world) then 1 else 2
  {
    hide ProbedKeys, CheckName;
    NoMatchWithoutKeys(map[], Keys(job));
    NothingFound([row], r => HasId(job, r));
    if !HasName(job, row) {
      NothingFound([row], r => HasName(job, r));
    }
  }

  /**
   Without an id a start that is repeated after a restart adds a second row exactly when the lookup by
   name does not find the first one, or finds it looking stale: whatever the archive was made from.
   */
  lemma WithoutIdRowsRepeat(job: Job, first: World, later: World)
    requires job.subtaskId.Nothing? && !IsInternal(job) && first.autoArchive && later.autoArchive
    requires first.created.Just? && later.created.Just?
    ensures var stale := later.progress.Just? && later.progress.value < 1.0 && later.now - first.now > 7200;
            |Run(State([], map[]), job, [Again(first), Restarted, Again(later)]).rows|
            == if AreFound(job, NamesOf(job, first.created.value)) && !stale then 1 else 2
  {
    hide Handle, AreFound, NamesOf, IsInternal;
    var empty, events := State([], map[]), [Again(first), Restarted, Again(later)];
    assert events[..2][..1] == [Again(first)] && events[..1][..0] == [] && events[..3] == events;
    assert events[..2] == [Again(first), Restarted];
    assert Run(empty, job, []) == empty;
    EmptyIsFilled(job, first);
    var row := Create([], job, first)[0];
    assert Run(empty, job, events[..1]).rows == [row];
    assert Run(empty, job, events[..2]) == State([row], map[]);
    SecondStart(job, row, later);
  }

  /** "My Print", stored by the slicer as `My_Print.3mf` under the title of the model, gets two rows. */
  lemma UnderscoredFileRepeats(printer: int, first: World, later: World)
    requires first.autoArchive && later.autoArchive && later.created.Just?
    requires first.created == Just(Downloaded("My_Print.3mf", "Benchy"))
    ensures var job := Job(printer, "My Print", "My Print", Nothing);
            && CanCreate(job, first.created.value)
            && |Run(State([], map[]), job, [Again(first), Restarted, Again(later)]).rows| == 2
  {
    var job := Job(printer, "My Print", "My Print", Nothing);
    UnderscoredIsCandidate(job);
    UnderscoredIsNotFound(job);
    assert job.filename[0] == 'M';
    hide IsCandidate, AreFound, NamesOf, Run, IsListed;
    WithoutIdRowsRepeat(job, first, later);
  }

  lemma UnderscoredIsCandidate(job: Job)
    requires job.subtask == "My Print"
    ensures IsCandidate(job, "My_Print.3mf")
  {
    var name := job.subtask + ".3mf";
    assert PlainCandidates(job)[1] == name;
    assert Underscored(name) == "My_Print.3mf";
  }

  lemma UnderscoredIsNotFound(job: Job)
    requires job.subtask == "My Print"
    ensures !AreFound(job, NamesOf(job, Downloaded("My_Print.3mf", "Benchy")))
  {
    AfterLastSlashAbsent("My_Print.3mf");
    assert (CheckName(job) + ".3mf")[2] == ' ' && "My_Print.3mf"[2] == '_';
    assert |CheckName(job) + ".gcode.3mf"| == 18;
  }

  /** Every job without an id can get two rows: its first one is given up after two hours at no progress. */
  lemma IdleRowRepeats(job: Job) returns (events: seq<Event>)
    requires job.subtaskId.Nothing? && !IsInternal(job)
    ensures ArePossible(job, events) && |Run(State([], map[]), job, events).rows| == 2
  {
    var first := World(0, true, Nothing, Nothing, Just(Untraced), 1);
    var later := World(STALE_SECONDS + 1, true, Just(0.0), Nothing, Just(Untraced), 2);
    events := [Again(first), Restarted, Again(later)];
    WithoutIdRowsRepeat(job, first, later);
  }

  /** Every archive that is made comes from where the code can get it. */
  predicate ArePossible(job: Job, events: seq<Event>) {
    forall e | e in events && e.Again? && e.world.created.Just? :: CanCreate(job, e.world.created.value)
  }

  ghost predicate AddsAtMostOneRow(job: Job) {
    forall s, events | ArePossible(job, events) :: |Run(s, job, events).rows| <= |s.rows| + 1
  }

  /** Repeated starts add at most one row, from any state, exactly for the jobs that have a subtask id. */
  lemma AtMostOneRowExactlyWithId(job: Job)
    requires !IsInternal(job)
    ensures AddsAtMostOneRow(job) <==> job.subtaskId.Just?
  {
    hide Handle, ProbedKeys, Run, ArePossible;
    if job.subtaskId.Just? {
      forall s, events ensures |Run(s, job, events).rows| <= |s.rows| + 1 {
        RestartsAddAtMostOneRow(s, job, events);
      }
    } else {
      var events := IdleRowRepeats(job);
    }
  }
}
