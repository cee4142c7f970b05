/**
 Prints in progress: the keys `on_print_start` stores an archive under, and the lookup by which
 `on_print_complete` finds it again and removes every key of it.
 */
module ActivePrints {
  import opened PyText
  import opened ExpectedPrints

  /** How a start came to its archive. */
  datatype Path =
    | Archived(downloaded: string)      // a new archive from the downloaded 3MF
    | Fallback                          // a new archive without a 3MF
    | Dispatched(archiveFile: string)   // the archive of an expected print

  /** `reported` is the subtask name of the message, `subtask` the one a plate check may have put in its place. */
  datatype Job = Job(printer: int, filename: string, reported: string, subtask: string, path: Path, archive: int)

  type Active = map<Key, int>

  // ---------------------------------------------------------------- the keys

  /** The name of a fallback archive: the subtask or file name without path and extensions. */
  function PrintName(filename: string, subtask: string): string {
    var name := if subtask != "" then subtask else filename;
    if name == "" then "Unknown Print"
    else Without(Without(Without(AfterLastSlash(name), ".gcode.3mf"), ".gcode"), ".3mf")
  }

  function SubtaskKey(job: Job): seq<Key> {
    if job.subtask == "" then [] else [Key(job.printer, job.subtask + ".3mf")]
  }

  function KeysOf(job: Job): seq<Key> {
    match job.path
    case Archived(downloaded) =>
      [Key(job.printer, downloaded)]
      + (if job.filename != "" && job.filename != downloaded then [Key(job.printer, job.filename)] else [])
      + SubtaskKey(job)
    case Fallback =>
      [Key(job.printer, if job.filename != "" then job.filename else PrintName(job.filename, job.subtask) + ".3mf")]
      + (if job.filename != "" then [Key(job.printer, job.filename)] else [])
      + SubtaskKey(job)
      + if job.subtask == "" then [] else [Key(job.printer, job.subtask)]
    case Dispatched(archiveFile) =>
      [Key(job.printer, archiveFile)] + SubtaskKey(job)
  }

  /** Names derived from a file name: as it is when it is a 3MF, else with the extensions a 3MF may have. */
  function FileNames(fname: string, both: bool): seq<string> {
    if EndsWith(fname, ".3mf") then [fname]
    else
      var base := if EndsWith(fname, ".gcode") then DropEnd(fname, 6) else fname;
      (if both then [base + ".gcode.3mf"] else []) + [base + ".3mf", fname]
  }

  function Named(printer: int, names: seq<string>): seq<Key> {
    seq(|names|, i requires 0 <= i < |names| => Key(printer, names[i]))
  }

  /** The keys a completion tries, in order. */
  function CompletionKeys(printer: int, filename: string, subtask: string): seq<Key> {
    (if subtask == "" then [] else Named(printer, [subtask + ".3mf", subtask + ".gcode.3mf", subtask]))
    + if filename == "" then []
      else Named(printer, FileNames(AfterLastSlash(filename), true)) + Named(printer, FileNames(filename, false))
  }

  // ---------------------------------------------------------------- start and completion

  function Track(active: Active, job: Job): Active {
    PutAll(active, KeysOf(job), job.archive)
  }

  /** Pop the keys in order; at the first archive found, drop every key that holds it. */
  function AfterCompletion(active: Active, keys: seq<Key>): Active
    decreases |keys|
  {
    if keys == [] then active
    else if keys[0] in active && active[keys[0]] != 0 then
      map k | k in active && active[k] != active[keys[0]] :: active[k]
    else AfterCompletion(DropAll(active, [keys[0]]), keys[1..])
  }

  class ActiveRegistry {
    var active: Active

    constructor ()
      ensures active == map[]
    {
      active := map[];
    }

    method TrackStart(job: Job)
      modifies this
      ensures active == Track(old(active), job)
    {
      hide KeysOf;
      var keys := KeysOf(job);
      var i := 0;
      assert active == PutAll(active, keys[..0], job.archive);
      while i < |keys|
        invariant 0 <= i <= |keys|
        invariant active == PutAll(old(active), keys[..i], job.archive)
      {
        assert keys[..i + 1] == keys[..i] + [keys[i]];
        active := active[keys[i] := job.archive];
        i := i + 1;
      }
      assert keys[..i] == keys;
    }

    method FindArchive(keys: seq<Key>) returns (archive: int)
      modifies this
      ensures archive == FirstMatch(old(active), keys)
      ensures active == AfterCompletion(old(active), keys)
    {
      archive := 0;
      var i := 0;
      while i < |keys|
        invariant 0 <= i <= |keys|
        invariant AfterCompletion(old(active), keys) == AfterCompletion(active, keys[i..])
        invariant FirstMatch(old(active), keys) == FirstMatch(active, keys[i..])
        invariant archive == 0
      {
        assert keys[i..][1..] == keys[i + 1..];
        var key, before := keys[i], active;
        if key in active {
          archive := active[key];
        }
        active := map k | k in active && k != key :: active[k];
        if archive != 0 {
          var toRemove := set k | k in active && active[k] == archive;
          active := map k | k in active && k !in toRemove :: active[k];
          assert active == map k | k in before && before[k] != before[key] :: before[k];
          return;
        }
        assert active == DropAll(before, [key]);
        FalsyKeyIsSkipped(before, key, keys[i + 1..]);
        i := i + 1;
      }
    }
  }

  /** Popping a key without a truthy value does not change what a later key finds. */
  lemma {:induction false} FalsyKeyIsSkipped(active: Active, key: Key, keys: seq<Key>)
    requires key in active ==> active[key] == 0
    ensures FirstMatch(DropAll(active, [key]), keys) == FirstMatch(active, keys)
  {
    if keys != [] {
      FalsyKeyIsSkipped(active, key, keys[1..]);
    }
  }

  predicate HoldsNothing(active: Active, key: Key) {
    key !in active || active[key] == 0
  }

  /**
   A completion drops the keys that it tried in vain, and then every key of the archive that the first other
   one holds.
   */
  lemma {:induction false} CompletionDropsExactly(active: Active, keys: seq<Key>, i: nat)
    requires i <= |keys| && forall j | 0 <= j < i :: HoldsNothing(active, keys[j])
    requires i < |keys| ==> !HoldsNothing(active, keys[i])
    ensures AfterCompletion(active, keys)
            == map k | k in active && k !in keys[..i] && (i < |keys| ==> active[k] != active[keys[i]]) :: active[k]
    decreases |keys|
  {
    if i > 0 {
      var rest := DropAll(active, [keys[0]]);
      assert keys[..i] == [keys[0]] + keys[1..][..i - 1];
      CompletionDropsExactly(rest, keys[1..], i - 1);
    }
  }

  // ---------------------------------------------------------------- what a completion does in general

  /** All stored archives have database ids, which start at one. */
  ghost predicate Truthy(active: Active) {
    forall k | k in active :: active[k] != 0
  }

  /** A completion that finds an archive removes its keys and no others; one that finds none removes nothing. */
  lemma {:induction false} CompletionRemovesOneArchive(active: Active, keys: seq<Key>)
    requires Truthy(active)
    ensures var found := FirstMatch(active, keys);
            AfterCompletion(active, keys)
            == if found == 0 then active else map k | k in active && active[k] != found :: active[k]
    decreases |keys|
  {
    if keys != [] {
      if keys[0] !in active {
        assert DropAll(active, [keys[0]]) == active;
        CompletionRemovesOneArchive(active, keys[1..]);
      }
    }
  }

  // ---------------------------------------------------------------- whole runs

  datatype Event = Start(job: Job) | Completion(printer: int, filename: string, subtask: string)

  function ActiveAfter(events: seq<Event>): Active {
    if events == [] then map[]
    else
      var before := ActiveAfter(events[..|events| - 1]);
      match events[|events| - 1]
      case Start(job) => Track(before, job)
      case Completion(printer, filename, subtask) =>
        AfterCompletion(before, CompletionKeys(printer, filename, subtask))
  }

  /** Which job each printer is on, by the events alone. */
  function Printing(events: seq<Event>): map<int, Job> {
    if events == [] then map[]
    else
      var before := Printing(events[..|events| - 1]);
      match events[|events| - 1]
      case Start(job) => before[job.printer := job]
      case Completion(printer, _, _) => map p | p in before && p != printer :: before[p]
  }

  /** The message names the job by a key the start stores. */
  predicate IsFindable(job: Job) {
    || (job.subtask == job.reported && job.subtask != "")
    || (!job.path.Dispatched? && job.filename != "")
  }

  /** What the printers do: starts and completions alternate. One archive may print on several printers. */
  predicate Fits(printing: map<int, Job>, event: Event) {
    match event
    case Start(job) =>
      job.printer !in printing && job.archive != 0 && IsFindable(job)
    case Completion(printer, filename, subtask) =>
      && printer in printing
      && printing[printer].filename == filename && printing[printer].reported == subtask
  }

  ghost predicate Alternates(events: seq<Event>) {
    forall i | 0 <= i < |events| :: Fits(Printing(events[..i]), events[i])
  }

  /** Another printer is printing the same archive. */
  predicate IsShared(printing: map<int, Job>, printer: int)
    requires printer in printing
  {
    exists p | p in printing :: p != printer && printing[p].archive == printing[printer].archive
  }

  /** The printers whose archive has been completed on another printer since they started it. */
  function Lost(events: seq<Event>): set<int> {
    if events == [] then {}
    else
      var front := events[..|events| - 1];
      match events[|events| - 1]
      case Start(_) => Lost(front)
      case Completion(printer, _, _) => LostWith(Printing(front), Lost(front), printer)
  }

  /** A completion that finds its archive takes it from everyone who is printing it. */
  function LostWith(printing: map<int, Job>, lost: set<int>, printer: int): set<int> {
    if printer in lost || printer !in printing then lost - {printer}
    else lost + (set p | p in printing && p != printer && printing[p].archive == printing[printer].archive)
  }

  ghost predicate AreFiled(printing: map<int, Job>) {
    forall p | p in printing :: printing[p].printer == p && printing[p].archive != 0
  }

  ghost predicate KeysBelong(active: Active, printing: map<int, Job>, lost: set<int>) {
    forall k | k in active ::
      k.printer in printing && k.printer !in lost && active[k] == printing[k.printer].archive
  }

  /** Every key belongs to the job its printer is on, and every job that is not lost can be found. */
  ghost predicate Tracked(active: Active, printing: map<int, Job>, lost: set<int>) {
    && KeysBelong(active, printing, lost)
    && AreFiled(printing)
    && lost <= printing.Keys
    && forall p | p in printing && p !in lost :: HasKeyOf(active, p, printing[p])
  }

  ghost predicate HasKeyOf(active: Active, printer: int, job: Job) {
    exists k | k in CompletionKeys(printer, job.filename, job.reported) :: k in active
  }

  lemma NamedContains(printer: int, names: seq<string>, name: string)
    requires name in names
    ensures Key(printer, name) in Named(printer, names)
  {
    var i :| 0 <= i < |names| && names[i] == name;
    assert Named(printer, names)[i] == Key(printer, name);
  }

  /** A findable job stores a key that its completion tries. */
  lemma FindableKey(job: Job) returns (k: Key)
    requires IsFindable(job)
    ensures k in KeysOf(job) && k in CompletionKeys(job.printer, job.filename, job.reported)
  {
    if job.subtask == job.reported && job.subtask != "" {
      k := Key(job.printer, job.subtask + ".3mf");
      assert k in SubtaskKey(job);
      NamedContains(job.printer, [job.subtask + ".3mf", job.subtask + ".gcode.3mf", job.subtask], job.subtask + ".3mf");
    } else {
      k := Key(job.printer, job.filename);
      var names := FileNames(job.filename, false);
      assert names[|names| - 1] == job.filename;
      NamedContains(job.printer, names, job.filename);
    }
  }

  lemma KeysArePrinters(job: Job)
    ensures forall k | k in KeysOf(job) :: k.printer == job.printer
  {}

  lemma CompletionKeysArePrinters(printer: int, filename: string, subtask: string)
    ensures forall k | k in CompletionKeys(printer, filename, subtask) :: k.printer == printer
  {}

  /** A job keeps its key as long as its printer's keys stay. */
  lemma KeyStays(active: Active, after: Active, printer: int, job: Job)
    requires HasKeyOf(active, printer, job)
    requires forall k | k in active && k.printer == printer :: k in after
    ensures HasKeyOf(after, printer, job)
  {
    CompletionKeysArePrinters(printer, job.filename, job.reported);
  }

  lemma TrackAdds(active: Active, job: Job)
    requires IsFindable(job)
    ensures var after := Track(active, job);
            && (forall k | k in active :: k in after)
            && (forall k | k in after ::
                  if k.printer == job.printer then k in active || after[k] == job.archive
                  else k in active && after[k] == active[k])
            && HasKeyOf(after, job.printer, job)
  {
    KeysArePrinters(job);
    var key := FindableKey(job);
    hide KeysOf, CompletionKeys;
  }

  lemma NewKeysBelong(active: Active, printing: map<int, Job>, lost: set<int>, job: Job)
    requires KeysBelong(active, printing, lost) && job.printer !in printing && job.printer !in lost && IsFindable(job)
    ensures KeysBelong(Track(active, job), printing[job.printer := job], lost)
  {
    TrackAdds(active, job);
    hide Track, HasKeyOf, IsFindable;
    var after := Track(active, job);
    forall k | k in after && k.printer == job.printer ensures after[k] == job.archive {
      assert k !in active;
    }
  }

  lemma StartStaysTracked(active: Active, printing: map<int, Job>, lost: set<int>, job: Job)
    requires Tracked(active, printing, lost) && Fits(printing, Start(job))
    ensures Tracked(Track(active, job), printing[job.printer := job], lost)
  {
    hide Track, HasKeyOf, IsFindable, KeysBelong;
    NewKeysBelong(active, printing, lost, job);
    TrackAdds(active, job);
    forall p | p in printing && p !in lost ensures HasKeyOf(Track(active, job), p, printing[p]) {
      KeyStays(active, Track(active, job), p, printing[p]);
    }
  }

  lemma {:induction false} MatchFound(active: Active, keys: seq<Key>, k: Key)
    requires Truthy(active) && k in keys && k in active
    ensures FirstMatch(active, keys) != 0
  {
    if keys[0] !in active {
      MatchFound(active, keys[1..], k);
    }
  }

  lemma {:induction false} NothingFound(active: Active, keys: seq<Key>)
    requires forall k | k in keys :: k !in active
    ensures FirstMatch(active, keys) == 0
  {
    if keys != [] {
      NothingFound(active, keys[1..]);
    }
  }

  /** The lookup of a completion finds the job's archive if it is not lost, and nothing if it is. */
  lemma CompletionFinds(active: Active, printing: map<int, Job>, lost: set<int>, printer: int)
    requires Tracked(active, printing, lost) && printer in printing
    ensures Truthy(active)
    ensures FirstMatch(active, CompletionKeys(printer, printing[printer].filename, printing[printer].reported))
            == if printer in lost then 0 else printing[printer].archive
  {
    var job := printing[printer];
    CompletionKeysArePrinters(printer, job.filename, job.reported);
    hide CompletionKeys;
    var keys := CompletionKeys(printer, job.filename, job.reported);
    if printer in lost {
      NothingFound(active, keys);
    } else {
      assert HasKeyOf(active, printer, job);
      var k :| k in keys && k in active;
      MatchFound(active, keys, k);
      var matched := MatchIsProbed(active, keys);
    }
  }

  /** What a completion leaves: nothing of its own printer, nothing of its archive if it finds it. */
  function Remaining(active: Active, printing: map<int, Job>, lost: set<int>, printer: int): Active
    requires printer in printing
  {
    if printer in lost then active else map k | k in active && active[k] != printing[printer].archive :: active[k]
  }

  lemma CompletionLeaves(active: Active, printing: map<int, Job>, lost: set<int>, printer: int)
    requires Tracked(active, printing, lost) && printer in printing
    ensures AfterCompletion(active, CompletionKeys(printer, printing[printer].filename, printing[printer].reported))
            == Remaining(active, printing, lost, printer)
  {
    CompletionFinds(active, printing, lost, printer);
    hide CompletionKeys, Tracked;
    var job := printing[printer];
    CompletionRemovesOneArchive(active, CompletionKeys(printer, job.filename, job.reported));
  }

  lemma CompletionStaysTracked(active: Active, printing: map<int, Job>, lost: set<int>, printer: int)
    requires Tracked(active, printing, lost) && printer in printing
    ensures Tracked(Remaining(active, printing, lost, printer),
                    map p | p in printing && p != printer :: printing[p], LostWith(printing, lost, printer))
  {
    hide HasKeyOf;
    var after, others := Remaining(active, printing, lost, printer), LostWith(printing, lost, printer);
    forall p | p in printing && p != printer && p !in others ensures HasKeyOf(after, p, printing[p]) {
      KeyStays(active, after, p, printing[p]);
    }
  }

  lemma AlternatesPrefix(events: seq<Event>, n: nat)
    requires Alternates(events) && n <= |events|
    ensures Alternates(events[..n])
  {
    forall i | 0 <= i < n ensures Fits(Printing(events[..n][..i]), events[..n][i]) {
      assert events[..n][..i] == events[..i];
    }
  }

  lemma {:induction false} RunStaysTracked(events: seq<Event>)
    requires Alternates(events)
    ensures Tracked(ActiveAfter(events), Printing(events), Lost(events))
  {
    if events != [] {
      hide CompletionKeys, KeysOf, Track, Tracked, LostWith, Remaining;
      var front, last := events[..|events| - 1], events[|events| - 1];
      AlternatesPrefix(events, |front|);
      RunStaysTracked(front);
      var active, printing, lost := ActiveAfter(front), Printing(front), Lost(front);
      assert Fits(printing, last);
      match last
      case Start(job) => StartStaysTracked(active, printing, lost, job);
      case Completion(printer, filename, subtask) =>
        CompletionLeaves(active, printing, lost, printer);
        CompletionStaysTracked(active, printing, lost, printer);
    } else {
      assert Tracked(map[], map[], {});
    }
  }

  // ---------------------------------------------------------------- pairing

  /** What the lookup of a completion finds after these events. */
  function FoundBy(events: seq<Event>, completion: Event): int
    requires completion.Completion?
  {
    FirstMatch(ActiveAfter(events), CompletionKeys(completion.printer, completion.filename, completion.subtask))
  }

  /** In any alternating run a completion finds its own archive exactly when that is not lost; else nothing. */
  lemma FindsExactlyWhenNotLost(events: seq<Event>, completion: Event)
    requires Alternates(events) && completion.Completion? && Fits(Printing(events), completion)
    ensures FoundBy(events, completion)
            == if completion.printer in Lost(events) then 0 else Printing(events)[completion.printer].archive
  {
    RunStaysTracked(events);
    CompletionFinds(ActiveAfter(events), Printing(events), Lost(events), completion.printer);
    hide CompletionKeys;
  }

  /**
   In any alternating run a completion leaves the other printers' keys alone exactly when its archive is
   lost already, or no other printer is on the same archive without having lost it.
   */
  lemma OthersUntouchedExactlyWhenNotShared(events: seq<Event>, completion: Event)
    requires Alternates(events) && completion.Completion? && Fits(Printing(events), completion)
    ensures var active, printing, lost := ActiveAfter(events), Printing(events), Lost(events);
            var after := ActiveAfter(events + [completion]);
            (forall k | k in active && k.printer != completion.printer :: k in after)
            <==> completion.printer in lost
                 || forall p | p in printing && p != completion.printer && p !in lost ::
                      printing[p].archive != printing[completion.printer].archive
  {
    RunStaysTracked(events);
    AfterOneMore(events, completion);
    hide CompletionKeys, ActiveAfter, Printing, Lost, Tracked;
    RemainingKeepsOthersExactly(ActiveAfter(events), Printing(events), Lost(events), completion.printer);
  }

  lemma AfterOneMore(events: seq<Event>, completion: Event)
    requires completion.Completion? && Fits(Printing(events), completion)
    requires Tracked(ActiveAfter(events), Printing(events), Lost(events))
    ensures ActiveAfter(events + [completion])
            == Remaining(ActiveAfter(events), Printing(events), Lost(events), completion.printer)
  {
    CompletionLeaves(ActiveAfter(events), Printing(events), Lost(events), completion.printer);
    assert (events + [completion])[..|events|] == events;
    hide CompletionKeys, Tracked, Remaining;
  }

  lemma RemainingKeepsOthersExactly(active: Active, printing: map<int, Job>, lost: set<int>, printer: int)
    requires Tracked(active, printing, lost) && printer in printing
    ensures (forall k | k in active && k.printer != printer :: k in Remaining(active, printing, lost, printer))
            <==> printer in lost
                 || forall p | p in printing && p != printer && p !in lost ::
                      printing[p].archive != printing[printer].archive
  {
    hide HasKeyOf;
    forall p | p in printing && p !in lost ensures exists k | k in active :: k.printer == p {
      KeyOfPrinter(active, p, printing[p]);
    }
  }

  lemma KeyOfPrinter(active: Active, printer: int, job: Job)
    requires HasKeyOf(active, printer, job)
    ensures exists k | k in active :: k.printer == printer
  {
    CompletionKeysArePrinters(printer, job.filename, job.reported);
    hide CompletionKeys;
  }

  /** Every completion finds the archive of its own start. */
  ghost predicate AllPair(events: seq<Event>) {
    forall i | 0 <= i < |events| && events[i].Completion? && events[i].printer in Printing(events[..i]) ::
      FoundBy(events[..i], events[i]) == Printing(events[..i])[events[i].printer].archive
  }

  /** No completion comes while another printer is printing the same archive. */
  ghost predicate NoneShared(events: seq<Event>) {
    forall i | 0 <= i < |events| && events[i].Completion? && events[i].printer in Printing(events[..i]) ::
      !IsShared(Printing(events[..i]), events[i].printer)
  }

  lemma {:induction false} NothingLost(events: seq<Event>)
    requires Alternates(events) && NoneShared(events)
    ensures Lost(events) == {}
  {
    if events != [] {
      var front, last := events[..|events| - 1], events[|events| - 1];
      AlternatesPrefix(events, |front|);
      forall i | 0 <= i < |front| && front[i].Completion? && front[i].printer in Printing(front[..i])
        ensures !IsShared(Printing(front[..i]), front[i].printer)
      {
        assert front[..i] == events[..i];
      }
      NothingLost(front);
      hide Printing, Lost;
      assert Fits(Printing(front), last);
      if last.Completion? {
        assert !IsShared(Printing(front), last.printer);
      }
      LostStep(events);
    }
  }

  lemma LostStep(events: seq<Event>)
    requires events != []
    ensures var front, last := events[..|events| - 1], events[|events| - 1];
            Lost(events) == if last.Start? then Lost(front) else LostWith(Printing(front), Lost(front), last.printer)
  {}

  /** Once lost, an archive stays lost as long as its printer completes nothing. */
  lemma {:induction false} StaysLost(events: seq<Event>, n: nat, printer: int)
    requires n <= |events| && printer in Lost(events[..n])
    requires forall j | n <= j < |events| && events[j].Completion? && events[j].printer == printer ::
               printer !in Lost(events[..j])
    ensures printer in Lost(events)
  {
    if n == |events| {
      assert events[..n] == events;
    } else {
      var front := events[..|events| - 1];
      assert front[..n] == events[..n];
      forall j | n <= j < |front| && front[j].Completion? && front[j].printer == printer
        ensures printer !in Lost(front[..j])
      {
        assert front[..j] == events[..j];
      }
      StaysLost(front, n, printer);
      LostStep(events);
      hide Lost;
    }
  }

  /** Whoever shares an archive with a completion that finds it has lost it. */
  lemma SharedIsLost(events: seq<Event>, i: nat) returns (other: int)
    requires i < |events| && events[i].Completion? && events[i].printer in Printing(events[..i])
    requires IsShared(Printing(events[..i]), events[i].printer) && events[i].printer !in Lost(events[..i])
    ensures other in Lost(events[..i + 1])
  {
    var printing := Printing(events[..i]);
    other :| other in printing && other != events[i].printer
             && printing[other].archive == printing[events[i].printer].archive;
    assert events[..i + 1][..i] == events[..i];
    LostStep(events[..i + 1]);
    hide Lost, Printing;
  }

  /**
   In a run of alternating starts and completions after which all printers are idle, every completion
   finds the archive of its own start exactly when none comes while another printer is on the same one.
   */
  lemma CompletionsPairExactlyWithoutSharing(events: seq<Event>)
    requires Alternates(events) && Printing(events) == map[]
    ensures AllPair(events) <==> NoneShared(events)
  {
    hide Lost, Printing, ActiveAfter, CompletionKeys, FoundBy, LostWith;
    forall i | 0 <= i < |events| && events[i].Completion?
      ensures FoundBy(events[..i], events[i])
              == if events[i].printer in Lost(events[..i]) then 0 else Printing(events[..i])[events[i].printer].archive
      ensures Printing(events[..i])[events[i].printer].archive != 0
    {
      CompletionPairs(events, i);
    }
    if NoneShared(events) {
      forall i | 0 <= i < |events| && events[i].Completion? ensures Lost(events[..i]) == {} {
        NoneSharedPrefix(events, i);
        AlternatesPrefix(events, i);
        NothingLost(events[..i]);
      }
    } else if AllPair(events) {
      var i :| 0 <= i < |events| && events[i].Completion? && events[i].printer in Printing(events[..i])
               && IsShared(Printing(events[..i]), events[i].printer);
      var other := SharedIsLost(events, i);
      StaysLost(events, i + 1, other);
      RunStaysTracked(events);
      assert false;
    }
  }

  lemma CompletionPairs(events: seq<Event>, i: nat)
    requires Alternates(events) && i < |events| && events[i].Completion?
    ensures events[i].printer in Printing(events[..i])
    ensures FoundBy(events[..i], events[i])
            == if events[i].printer in Lost(events[..i]) then 0 else Printing(events[..i])[events[i].printer].archive
    ensures Printing(events[..i])[events[i].printer].archive != 0
  {
    hide FoundBy, Lost, Printing, ActiveAfter;
    assert Fits(Printing(events[..i]), events[i]);
    AlternatesPrefix(events, i);
    FindsExactlyWhenNotLost(events[..i], events[i]);
    RunStaysTracked(events[..i]);
  }

  lemma NoneSharedPrefix(events: seq<Event>, n: nat)
    requires NoneShared(events) && n <= |events|
    ensures NoneShared(events[..n])
  {
    hide Printing;
    forall i | 0 <= i < n && events[i].Completion? && events[i].printer in Printing(events[..n][..i])
      ensures !IsShared(Printing(events[..n][..i]), events[i].printer)
    {
      assert events[..n][..i] == events[..i];
    }
  }

  /**
   A completion in a run without sharing leaves no key of its printer and changes nothing for the
   others, also when the other printers share archives among themselves.
   */
  lemma CompletionsPairWithStarts(events: seq<Event>, completion: Event)
    requires Alternates(events) && NoneShared(events)
    requires completion.Completion? && Fits(Printing(events), completion)
    requires !IsShared(Printing(events), completion.printer)
    ensures FoundBy(events, completion) == Printing(events)[completion.printer].archive
    ensures var active := ActiveAfter(events);
            ActiveAfter(events + [completion]) == map k | k in active && k.printer != completion.printer :: active[k]
  {
    NothingLost(events);
    FindsExactlyWhenNotLost(events, completion);
    RunStaysTracked(events);
    AfterOneMore(events, completion);
    hide CompletionKeys, ActiveAfter, Printing, Lost, HasKeyOf, FoundBy;
  }

  /** One archive dispatched to two printers: the first completion takes the keys of both. */
  lemma SharedArchiveIsLost(first: Job, second: Job)
    requires first.printer != second.printer && first.archive == second.archive != 0
    requires IsFindable(first) && IsFindable(second)
    ensures var done, last := Completion(first.printer, first.filename, first.reported),
                              Completion(second.printer, second.filename, second.reported);
            var events := [Start(first), Start(second), done];
            && Alternates(events + [last])
            && ActiveAfter(events) == map[] && FoundBy(events, last) == 0
  {
    var done, last := Completion(first.printer, first.filename, first.reported),
                      Completion(second.printer, second.filename, second.reported);
    var all := [Start(first), Start(second), done, last];
    assert all[..0] == [] && all[..1] == [Start(first)] && all[..2] == [Start(first), Start(second)];
    assert all[..2][..1] == all[..1] && all[..1][..0] == [] && all[..3][..2] == all[..2];
    assert all[..3] == [Start(first), Start(second), done] && all == all[..3] + [last];
    hide ActiveAfter, IsFindable, FoundBy;
    assert Printing(all[..1]) == map[first.printer := first];
    assert Printing(all[..2]) == map[first.printer := first, second.printer := second];
    assert Printing(all[..3]) == map[second.printer := second];
    LostStep(all[..1]);
    LostStep(all[..2]);
    LostStep(all[..3]);
    assert Lost(all[..3]) == {second.printer};
    forall i | 0 <= i < 4 ensures Fits(Printing(all[..i]), all[i]) {
      assert i == 0 || i == 1 || i == 2 || i == 3;
    }
    AlternatesPrefix(all, 3);
    FindsExactlyWhenNotLost(all[..3], last);
    RunStaysTracked(all[..3]);
  }
}
