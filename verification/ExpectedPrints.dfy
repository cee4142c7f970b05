/**
 Prints that were dispatched and are expected to start: `register_expected_print`, the lookup in
 `on_print_start`, and the sweep that evicts what never started. The registry is several dictionaries
 that are written in different places; here they are shown to move together.
 */
module ExpectedPrints {
  import opened PyText
  import opened Wrappers

  datatype Key = Key(printer: int, name: string)

  /** `_expected_prints`, `_expected_print_registered_at`, `_print_ams_mappings`, `_print_plate_ids`. */
  datatype Registry = Registry(
    expected: map<Key, int>,
    registeredAt: map<Key, int>,
    amsMappings: map<int, seq<int>>,
    plateIds: map<int, int>)

  const EMPTY := Registry(map[], map[], map[], map[])

  const TTL_SECONDS := 2 * 60 * 60

  // ---------------------------------------------------------------- names

  /** The keys one registration is stored under. */
  function Aliases(printer: int, filename: string): seq<Key> {
    if EndsWith(filename, ".3mf") then
      var base := DropEnd(filename, 4);
      [Key(printer, filename), Key(printer, base), Key(printer, base + ".gcode")]
    else [Key(printer, filename)]
  }

  /** The keys a start looks up, in order. */
  function ProbedKeys(printer: int, filename: string, subtask: string): seq<Key> {
    (if subtask == "" then []
     else [Key(printer, subtask), Key(printer, subtask + ".3mf"), Key(printer, subtask + ".gcode.3mf")])
    + if filename == "" then []
      else
        var fname := AfterLastSlash(filename);
        var base := Without(Without(fname, ".gcode"), ".3mf");
        [Key(printer, fname), Key(printer, base), Key(printer, base + ".3mf")]
  }

  // ---------------------------------------------------------------- operations as functions

  function PutAll<V>(m: map<Key, V>, keys: seq<Key>, v: V): map<Key, V> {
    m + map k | k in keys :: v
  }

  lemma PutEach<V>(m: map<Key, V>, a: Key, b: Key, c: Key, v: V)
    ensures PutAll(m, [a], v) == m[a := v]
    ensures PutAll(m, [a, b, c], v) == m[a := v][b := v][c := v]
  {}

  function DropAll<V>(m: map<Key, V>, keys: seq<Key>): map<Key, V> {
    map k | k in m && k !in keys :: m[k]
  }

  function Register(
    r: Registry, printer: int, filename: string, archive: int, ams: Maybe<seq<int>>, plate: Maybe<int>, now: int)
    : Registry
  {
    var keys := Aliases(printer, filename);
    Registry(
      PutAll(r.expected, keys, archive),
      PutAll(r.registeredAt, keys, now),
      if ams.Just? then r.amsMappings[archive := ams.value] else r.amsMappings,
      if plate.Just? then r.plateIds[archive := plate.value] else r.plateIds)
  }

  /** The archive of the first probed key that holds a truthy id; 0 when there is none. */
  function FirstMatch(expected: map<Key, int>, keys: seq<Key>): int {
    if keys == [] then 0
    else if keys[0] in expected && expected[keys[0]] != 0 then expected[keys[0]]
    else FirstMatch(expected, keys[1..])
  }

  /** A start takes every key it probes out of the registry, whether it matches or not. */
  function Start(r: Registry, keys: seq<Key>): Registry {
    r.(expected := DropAll(r.expected, keys), registeredAt := DropAll(r.registeredAt, keys))
  }

  lemma StartMore(r: Registry, front: seq<Key>, keys: seq<Key>)
    ensures Start(Start(r, front), keys) == Start(r, front + keys)
  {}

  lemma StartAgain(r: Registry, keys: seq<Key>, i: nat)
    requires i <= |keys|
    ensures Start(r, keys[..i] + keys) == Start(r, keys)
  {
    assert forall k :: k in keys[..i] + keys <==> k in keys;
  }

  /** What a probe finds when the keys before it are out and held nothing truthy. */
  lemma FirstOfThese(r: Registry, keys: seq<Key>, i: nat)
    requires i < |keys| && forall k | k in keys[..i] :: k in r.expected ==> r.expected[k] == 0
    ensures var now := Start(r, keys[..i]).expected;
            && (keys[i] in now && now[keys[i]] != 0 <==> keys[i] in r.expected && r.expected[keys[i]] != 0)
            && (keys[i] in now ==> keys[i] in r.expected && now[keys[i]] == r.expected[keys[i]])
  {}

  lemma StartNothing(r: Registry)
    ensures Start(r, []) == r
  {}

  predicate IsStale(r: Registry, k: Key, now: int) {
    k in r.registeredAt && r.registeredAt[k] < now - TTL_SECONDS
  }

  predicate HasKey(expected: map<Key, int>, archive: int) {
    exists k | k in expected :: expected[k] == archive
  }

  /** The archives that lose a key in this sweep and have none left. */
  function Forgotten(r: Registry, now: int): set<int> {
    set k | k in r.expected && IsStale(r, k, now) && !HasKey(Kept(r, now), r.expected[k]) :: r.expected[k]
  }

  function Kept(r: Registry, now: int): map<Key, int> {
    map k | k in r.expected && !IsStale(r, k, now) :: r.expected[k]
  }

  function Evict(r: Registry, now: int): Registry {
    Registry(
      Kept(r, now),
      map k | k in r.registeredAt && !IsStale(r, k, now) :: r.registeredAt[k],
      r.amsMappings - Forgotten(r, now),
      r.plateIds - Forgotten(r, now))
  }

  // ---------------------------------------------------------------- the dictionaries themselves

  class PrintRegistry {
    var expected: map<Key, int>
    var registeredAt: map<Key, int>
    var amsMappings: map<int, seq<int>>
    var plateIds: map<int, int>

    ghost function AsRegistry(): Registry
      reads this
    {
      Registry(expected, registeredAt, amsMappings, plateIds)
    }

    constructor ()
      ensures AsRegistry() == EMPTY
    {
      expected, registeredAt, amsMappings, plateIds := map[], map[], map[], map[];
    }

    method RegisterExpectedPrint(
      printer: int, filename: string, archive: int, ams: Maybe<seq<int>>, plate: Maybe<int>, now: int)
      modifies this
      ensures AsRegistry() == Register(old(AsRegistry()), printer, filename, archive, ams, plate, now)
    {
      ghost var before := AsRegistry();
      expected := expected[Key(printer, filename) := archive];
      if EndsWith(filename, ".3mf") {
        var base := DropEnd(filename, 4);
        expected := expected[Key(printer, base) := archive];
        expected := expected[Key(printer, base + ".gcode") := archive];
      }
      if ams.Just? {
        amsMappings := amsMappings[archive := ams.value];
      }
      if plate.Just? {
        plateIds := plateIds[archive := plate.value];
      }
      registeredAt := registeredAt[Key(printer, filename) := now];
      if EndsWith(filename, ".3mf") {
        var base := DropEnd(filename, 4);
        registeredAt := registeredAt[Key(printer, base) := now];
        registeredAt := registeredAt[Key(printer, base + ".gcode") := now];
      }
      hide PutAll;
      ghost var first := Key(printer, filename);
      ghost var base := if EndsWith(filename, ".3mf") then DropEnd(filename, 4) else filename;
      PutEach(before.expected, first, Key(printer, base), Key(printer, base + ".gcode"), archive);
      PutEach(before.registeredAt, first, Key(printer, base), Key(printer, base + ".gcode"), now);
    }

    /** The lookup loop of `on_print_start`. */
    method TakeExpected(keys: seq<Key>) returns (archive: int)
      modifies this`expected, this`registeredAt
      ensures AsRegistry() == Start(old(AsRegistry()), keys)
      ensures archive == FirstMatch(old(expected), keys)
    {
      hide Start;
      archive := 0;
      var i := 0;
      ghost var before := AsRegistry();
      StartNothing(before);
      while i < |keys|
        invariant 0 <= i <= |keys|
        invariant archive == 0 && FirstMatch(old(expected), keys) == FirstMatch(old(expected), keys[i..])
        invariant forall k | k in keys[..i] :: k in old(expected) ==> old(expected)[k] == 0
        invariant AsRegistry() == Start(before, keys[..i])
      {
        assert keys[i..][1..] == keys[i + 1..];
        assert keys[..i + 1] == keys[..i] + [keys[i]];
        FirstOfThese(before, keys, i);
        if keys[i] in expected {
          archive := expected[keys[i]];
        } else {
          archive := 0;
        }
        Pop(keys[i]);
        StartMore(before, keys[..i], [keys[i]]);
        i := i + 1;
        if archive != 0 {
          PopAll(keys);
          StartMore(before, keys[..i], keys);
          StartAgain(before, keys, i);
          return;
        }
      }
      assert keys[..i] == keys;
    }

    method Pop(key: Key)
      modifies this`expected, this`registeredAt
      ensures AsRegistry() == Start(old(AsRegistry()), [key])
    {
      expected := map k | k in expected && k != key :: expected[k];
      registeredAt := map k | k in registeredAt && k != key :: registeredAt[k];
    }

    method PopAll(keys: seq<Key>)
      modifies this`expected, this`registeredAt
      ensures AsRegistry() == Start(old(AsRegistry()), keys)
    {
      hide Start;
      var i := 0;
      ghost var before := AsRegistry();
      StartNothing(before);
      while i < |keys|
        invariant 0 <= i <= |keys|
        invariant AsRegistry() == Start(before, keys[..i])
      {
        assert keys[..i + 1] == keys[..i] + [keys[i]];
        Pop(keys[i]);
        StartMore(before, keys[..i], [keys[i]]);
        i := i + 1;
      }
      assert keys[..i] == keys;
    }

    /** The first loop of the sweep: pop the stale keys, remember whose they were. */
    method PopStale(staleKeys: set<Key>) returns (evicted: set<int>)
      modifies this`expected, this`registeredAt
      ensures expected == map k | k in old(expected) && k !in staleKeys :: old(expected)[k]
      ensures registeredAt == map k | k in old(registeredAt) && k !in staleKeys :: old(registeredAt)[k]
      ensures evicted == set k | k in old(expected) && k in staleKeys :: old(expected)[k]
    {
      evicted := {};
      var left := staleKeys;
      while left != {}
        invariant left <= staleKeys
        invariant expected == map k | k in old(expected) && (k !in staleKeys || k in left) :: old(expected)[k]
        invariant registeredAt
               == map k | k in old(registeredAt) && (k !in staleKeys || k in left) :: old(registeredAt)[k]
        invariant evicted == set k | k in old(expected) && k in staleKeys && k !in left :: old(expected)[k]
        decreases left
      {
        var key :| key in left;
        if key in expected {
          evicted := evicted + {expected[key]};
        }
        expected := map k | k in expected && k != key :: expected[k];
        registeredAt := map k | k in registeredAt && k != key :: registeredAt[k];
        left := left - {key};
      }
    }

    method EvictStale(now: int)
      modifies this
      ensures AsRegistry() == Evict(old(AsRegistry()), now)
    {
      ghost var before := AsRegistry();
      var cutoff := now - TTL_SECONDS;
      var staleKeys := set k | k in registeredAt && registeredAt[k] < cutoff;
      assert forall k :: k in staleKeys <==> IsStale(before, k, now);
      if staleKeys == {} {
        NothingStale(before, now);
        return;
      }
      var evicted := PopStale(staleKeys);
      assert expected == Kept(before, now);
      var live := set k | k in expected :: expected[k];
      var forgotten := set a | a in evicted && a !in live;
      assert forall a :: a in live <==> HasKey(expected, a);
      assert forgotten == Forgotten(before, now);
      amsMappings := amsMappings - forgotten;
      plateIds := plateIds - forgotten;
    }
  }

  lemma NothingStale(r: Registry, now: int)
    requires forall k :: !IsStale(r, k, now)
    ensures Evict(r, now) == r
  {
    assert Kept(r, now) == r.expected && Forgotten(r, now) == {};
  }

  // ---------------------------------------------------------------- whole runs

  /** What happens to the registry: `Completed` is a print completing with its archive known. */
  datatype Op =
    | Registered(printer: int, filename: string, archive: int, ams: Maybe<seq<int>>, plate: Maybe<int>, now: int)
    | Started(printer: int, filename: string, subtask: string)
    | Swept(now: int)
    | Completed(archive: int)

  function Apply(r: Registry, op: Op): Registry {
    match op
    case Registered(printer, filename, archive, ams, plate, now) =>
      Register(r, printer, filename, archive, ams, plate, now)
    case Started(printer, filename, subtask) => Start(r, ProbedKeys(printer, filename, subtask))
    case Swept(now) => Evict(r, now)
    case Completed(archive) => r.(amsMappings := r.amsMappings - {archive}, plateIds := r.plateIds - {archive})
  }

  function Run(ops: seq<Op>): Registry {
    if ops == [] then EMPTY else Apply(Run(ops[..|ops| - 1]), ops[|ops| - 1])
  }

  /** One key on its own: absent, or held for an archive since some time. */
  datatype Entry = Absent | Held(archive: int, since: int)

  predicate Takes(op: Op, k: Key) {
    op.Started? && k in ProbedKeys(op.printer, op.filename, op.subtask)
  }

  predicate Gives(op: Op, k: Key) {
    op.Registered? && k in Aliases(op.printer, op.filename)
  }

  predicate Expires(op: Op, since: int) {
    op.Swept? && since < op.now - TTL_SECONDS
  }

  function EntryStep(e: Entry, k: Key, op: Op): Entry {
    if Gives(op, k) then Held(op.archive, op.now)
    else if Takes(op, k) then Absent
    else if e.Held? && Expires(op, e.since) then Absent
    else e
  }

  function EntryOf(ops: seq<Op>, k: Key): Entry {
    if ops == [] then Absent else EntryStep(EntryOf(ops[..|ops| - 1], k), k, ops[|ops| - 1])
  }

  ghost predicate Holds(r: Registry, k: Key, e: Entry) {
    && (k in r.expected <==> e.Held?)
    && (k in r.registeredAt <==> e.Held?)
    && (e.Held? ==> r.expected[k] == e.archive && r.registeredAt[k] == e.since)
  }

  /** The two dictionaries hold, for every key, exactly what that key's own history says. */
  lemma {:induction false} KeysEvolveAlone(ops: seq<Op>, k: Key)
    ensures Holds(Run(ops), k, EntryOf(ops, k))
  {
    if ops != [] {
      hide ProbedKeys, Aliases, Forgotten;
      KeysEvolveAlone(ops[..|ops| - 1], k);
    }
  }

  lemma {:induction false} DomainsAgree(ops: seq<Op>)
    ensures Run(ops).expected.Keys == Run(ops).registeredAt.Keys
  {
    forall k ensures k in Run(ops).expected <==> k in Run(ops).registeredAt {
      KeysEvolveAlone(ops, k);
    }
  }

  /** A key is held because some registration gave it, and nothing has taken or expired it since. */
  lemma {:induction false} HeldSinceRegistration(ops: seq<Op>, k: Key) returns (i: nat)
    requires EntryOf(ops, k).Held?
    ensures i < |ops| && Gives(ops[i], k)
    ensures EntryOf(ops, k) == Held(ops[i].archive, ops[i].now)
    ensures forall j | i < j < |ops| :: !Gives(ops[j], k) && !Takes(ops[j], k) && !Expires(ops[j], ops[i].now)
  {
    var last := ops[|ops| - 1];
    if Gives(last, k) {
      i := |ops| - 1;
    } else {
      i := HeldSinceRegistration(ops[..|ops| - 1], k);
    }
  }

  lemma {:induction false} MatchIsProbed(expected: map<Key, int>, keys: seq<Key>) returns (k: Key)
    requires FirstMatch(expected, keys) != 0
    ensures k in keys && k in expected && expected[k] == FirstMatch(expected, keys)
  {
    if keys[0] in expected && expected[keys[0]] != 0 {
      k := keys[0];
    } else {
      k := MatchIsProbed(expected, keys[1..]);
    }
  }

  /** The match is what the first of the keys to hold anything truthy holds. */
  lemma {:induction false} MatchIsFirst(expected: map<Key, int>, keys: seq<Key>, i: nat)
    requires i < |keys| && keys[i] in expected && expected[keys[i]] != 0
    requires forall j | 0 <= j < i :: keys[j] in expected ==> expected[keys[j]] == 0
    ensures FirstMatch(expected, keys) == expected[keys[i]]
  {
    if i > 0 {
      MatchIsFirst(expected, keys[1..], i - 1);
    }
  }

  /** A start only ever picks up an archive registered for one of the keys it probes and still fresh. */
  lemma StartPicksUpRegistration(ops: seq<Op>, printer: int, filename: string, subtask: string) returns (i: nat, k: Key)
    requires FirstMatch(Run(ops).expected, ProbedKeys(printer, filename, subtask)) != 0
    ensures i < |ops| && k in ProbedKeys(printer, filename, subtask) && Gives(ops[i], k)
    ensures ops[i].archive == FirstMatch(Run(ops).expected, ProbedKeys(printer, filename, subtask))
    ensures forall j | i < j < |ops| :: !Gives(ops[j], k) && !Takes(ops[j], k) && !Expires(ops[j], ops[i].now)
  {
    k := MatchIsProbed(Run(ops).expected, ProbedKeys(printer, filename, subtask));
    KeysEvolveAlone(ops, k);
    i := HeldSinceRegistration(ops, k);
  }

  /** After a start none of its probed keys is left, and every other key is as it was. */
  lemma StartLeavesNoProbedKey(ops: seq<Op>, printer: int, filename: string, subtask: string, k: Key)
    ensures var after := Run(ops + [Started(printer, filename, subtask)]);
            && (k in ProbedKeys(printer, filename, subtask) ==> k !in after.expected && k !in after.registeredAt)
            && (k !in ProbedKeys(printer, filename, subtask) ==> Holds(after, k, EntryOf(ops, k)))
  {
    hide ProbedKeys;
    var op := Started(printer, filename, subtask);
    assert (ops + [op])[..|ops|] == ops;
    KeysEvolveAlone(ops + [op], k);
  }

  /**
   A sweep keeps exactly the keys that are not older than two hours, and forgets an archive's mapping and
   plate exactly when it took that archive's last key.
   */
  lemma {:induction false} SweepIsExact(ops: seq<Op>, now: int)
    ensures var before, after := Run(ops), Run(ops + [Swept(now)]);
            && before.expected.Keys == before.registeredAt.Keys
            && (forall k ::
                  k in after.expected <==> k in before.expected && before.registeredAt[k] >= now - 7200)
            && (forall k | k in after.expected :: after.expected[k] == before.expected[k])
            && (forall a ::
                  var lostLast := !HasKey(after.expected, a) && HasKey(before.expected, a);
                  && (a in after.amsMappings <==> a in before.amsMappings && !lostLast)
                  && (a in after.plateIds <==> a in before.plateIds && !lostLast))
  {
    assert (ops + [Swept(now)])[..|ops|] == ops;
    DomainsAgree(ops);
    var before, after := Run(ops), Run(ops + [Swept(now)]);
    assert after == Evict(before, now);
    hide Run;
    forall a ensures a in Forgotten(before, now) <==> !HasKey(after.expected, a) && HasKey(before.expected, a) {
      if !HasKey(after.expected, a) && HasKey(before.expected, a) {
        var k :| k in before.expected && before.expected[k] == a;
        assert k !in after.expected;
      }
    }
  }

  // ---------------------------------------------------------------- plates and mappings

  /** The sweep that is operation `j` takes the last key of the archive. */
  ghost predicate Forgets(ops: seq<Op>, j: nat, archive: int)
    requires j < |ops|
  {
    ops[j].Swept? && HasKey(Run(ops[..j]).expected, archive) && !HasKey(Run(ops[..j + 1]).expected, archive)
  }

  /** Operation `j` ends what is stored for the archive: it is completed or forgotten. */
  ghost predicate Ends(ops: seq<Op>, j: nat, archive: int)
    requires j < |ops|
  {
    ops[j] == Completed(archive) || Forgets(ops, j, archive)
  }

  predicate NamesPlate(op: Op, archive: int) {
    op.Registered? && op.archive == archive && op.plate.Just?
  }

  predicate NamesMapping(op: Op, archive: int) {
    op.Registered? && op.archive == archive && op.ams.Just?
  }

  /** Registration `i` is the last to name a plate for the archive, and it has not ended since. */
  ghost predicate PlateSince(ops: seq<Op>, i: nat, archive: int) {
    && i < |ops| && NamesPlate(ops[i], archive)
    && forall j | i < j < |ops| :: !NamesPlate(ops[j], archive) && !Ends(ops, j, archive)
  }

  ghost predicate MappingSince(ops: seq<Op>, i: nat, archive: int) {
    && i < |ops| && NamesMapping(ops[i], archive)
    && forall j | i < j < |ops| :: !NamesMapping(ops[j], archive) && !Ends(ops, j, archive)
  }

  lemma EndsInFront(ops: seq<Op>, archive: int)
    requires ops != []
    ensures forall j | 0 <= j < |ops| - 1 :: Ends(ops, j, archive) <==> Ends(ops[..|ops| - 1], j, archive)
  {
    hide Run, HasKey;
    var front := ops[..|ops| - 1];
    forall j | 0 <= j < |front| ensures Ends(ops, j, archive) <==> Ends(front, j, archive) {
      assert ops[..j] == front[..j] && ops[..j + 1] == front[..j + 1] && ops[j] == front[j];
    }
  }

  /** What the last operation does to the plate and the mapping of one archive. */
  lemma LastOperation(ops: seq<Op>, archive: int)
    requires ops != []
    ensures var front, last := ops[..|ops| - 1], ops[|ops| - 1];
            var before, after := Run(front), Run(ops);
            && (if NamesPlate(last, archive) then
                  archive in after.plateIds && after.plateIds[archive] == last.plate.value
                else if Ends(ops, |ops| - 1, archive) then archive !in after.plateIds
                else SameAt(before.plateIds, after.plateIds, archive))
            && (if NamesMapping(last, archive) then
                  archive in after.amsMappings && after.amsMappings[archive] == last.ams.value
                else if Ends(ops, |ops| - 1, archive) then archive !in after.amsMappings
                else SameAt(before.amsMappings, after.amsMappings, archive))
  {
    hide ProbedKeys, Aliases, HasKey;
    var front, last := ops[..|ops| - 1], ops[|ops| - 1];
    assert ops[..|ops|] == ops && ops == front + [last];
    if last.Swept? {
      SweepIsExact(front, last.now);
    }
    hide Forgotten, Kept, PutAll, DropAll;
  }

  ghost predicate SameAt<V>(before: map<int, V>, after: map<int, V>, archive: int) {
    (archive in before <==> archive in after) && (archive in after ==> after[archive] == before[archive])
  }

  /**
   The plate of an archive is stored exactly from the registration that names it until the print completes or
   a sweep takes the archive's last key; a later registration that names one replaces it.
   */
  lemma {:induction false} PlateIsKeptExactly(ops: seq<Op>, archive: int)
    ensures archive in Run(ops).plateIds <==> exists i: nat :: PlateSince(ops, i, archive)
    ensures forall i: nat | PlateSince(ops, i, archive) :: Just(Run(ops).plateIds[archive]) == ops[i].plate
  {
    if ops != [] {
      PlateIsKeptExactly(ops[..|ops| - 1], archive);
      LastOperation(ops, archive);
      PlateAfterLast(ops, archive);
      hide Run, Ends, PlateSince;
      var front := ops[..|ops| - 1];
      if NamesPlate(ops[|ops| - 1], archive) {
        assert PlateSince(ops, |ops| - 1, archive);
      } else if i: nat :| PlateSince(front, i, archive) {
        assert PlateSince(ops, i, archive) <==> !Ends(ops, |ops| - 1, archive);
      }
    }
  }

  lemma PlateAfterLast(ops: seq<Op>, archive: int)
    requires ops != []
    ensures forall i: nat :: PlateSince(ops, i, archive)
              <==> if NamesPlate(ops[|ops| - 1], archive) then i == |ops| - 1
                   else !Ends(ops, |ops| - 1, archive) && PlateSince(ops[..|ops| - 1], i, archive)
  {
    EndsInFront(ops, archive);
    hide Ends;
    var front, n := ops[..|ops| - 1], |ops| - 1;
    assert forall j | 0 <= j < n :: ops[j] == front[j];
  }

  /** And so is its mapping of filaments. */
  lemma {:induction false} MappingIsKeptExactly(ops: seq<Op>, archive: int)
    ensures archive in Run(ops).amsMappings <==> exists i: nat :: MappingSince(ops, i, archive)
    ensures forall i: nat | MappingSince(ops, i, archive) :: Just(Run(ops).amsMappings[archive]) == ops[i].ams
  {
    if ops != [] {
      MappingIsKeptExactly(ops[..|ops| - 1], archive);
      LastOperation(ops, archive);
      MappingAfterLast(ops, archive);
      hide Run, Ends, MappingSince;
      var front := ops[..|ops| - 1];
      if NamesMapping(ops[|ops| - 1], archive) {
        assert MappingSince(ops, |ops| - 1, archive);
      } else if i: nat :| MappingSince(front, i, archive) {
        assert MappingSince(ops, i, archive) <==> !Ends(ops, |ops| - 1, archive);
      }
    }
  }

  lemma MappingAfterLast(ops: seq<Op>, archive: int)
    requires ops != []
    ensures forall i: nat :: MappingSince(ops, i, archive)
              <==> if NamesMapping(ops[|ops| - 1], archive) then i == |ops| - 1
                   else !Ends(ops, |ops| - 1, archive) && MappingSince(ops[..|ops| - 1], i, archive)
  {
    EndsInFront(ops, archive);
    hide Ends;
    var front, n := ops[..|ops| - 1], |ops| - 1;
    assert forall j | 0 <= j < n :: ops[j] == front[j];
  }

  // ---------------------------------------------------------------- which registrations a start finds

  /** A print registered as `filename` is known by that name, without its `.3mf`, and with `.gcode` instead. */
  ghost predicate IsKnownAs(filename: string, name: string) {
    name == filename || exists stem :: filename == stem + ".3mf" && (name == stem || name == stem + ".gcode")
  }

  /** The last part of a path without any `.gcode` and then without any `.3mf`. */
  function Bare(last: string): string {
    Without(Without(last, ".gcode"), ".3mf")
  }

  /** A start asks for `name`: by its subtask, with and without extension, or by the last part of its path. */
  ghost predicate AsksFor(path: string, subtask: string, name: string) {
    || (subtask != "" && (name == subtask || name == subtask + ".3mf" || name == subtask + ".gcode.3mf"))
    || (path != "" && exists last ::
          IsLastPart(path, last) && (name == last || name == Bare(last) || name == Bare(last) + ".3mf"))
  }

  lemma KnownAsExactly(printer: int, filename: string, k: Key)
    ensures k in Aliases(printer, filename) <==> k.printer == printer && IsKnownAs(filename, k.name)
  {
    if EndsWith(filename, ".3mf") {
      assert filename == DropEnd(filename, 4) + ".3mf";
    }
    if stem :| filename == stem + ".3mf" && (k.name == stem || k.name == stem + ".gcode") {
      assert DropEnd(filename, 4) == stem && filename[|stem|..] == ".3mf";
    }
  }

  lemma AsksForExactly(printer: int, path: string, subtask: string, k: Key)
    ensures k in ProbedKeys(printer, path, subtask) <==> k.printer == printer && AsksFor(path, subtask, k.name)
  {
    var last := AfterLastSlash(path);
    assert Bare(last) == Without(Without(last, ".gcode"), ".3mf");
    hide Bare, IsLastPart, Without, AfterLastSlash;
    AfterLastSlashExactly(path, last);
    forall other | IsLastPart(path, other) ensures other == last {
      AfterLastSlashExactly(path, other);
    }
  }

  lemma {:induction false} MatchesWhatIsHeld(expected: map<Key, int>, keys: seq<Key>, archive: int)
    requires forall k | k in keys && k in expected :: expected[k] == archive || expected[k] == 0
    ensures FirstMatch(expected, keys)
            == if exists k | k in keys :: k in expected && expected[k] == archive then archive else 0
  {
    if keys != [] {
      MatchesWhatIsHeld(expected, keys[1..], archive);
      assert keys[0] in keys;
      if k :| k in keys && k in expected && expected[k] == archive {
        assert k == keys[0] || k in keys[1..];
      }
    }
  }

  /**
   When nothing else is expected under the names a start asks for, it picks up a registration if and only if
   that is for its printer and known under one of these names.
   */
  lemma {:induction false} StartFindsExactly(ops: seq<Op>, register: Op, start: Op)
    requires register.Registered? && start.Started? && register.archive != 0
    requires forall k | k in Run(ops).expected && k.printer == start.printer ::
               !AsksFor(start.filename, start.subtask, k.name)
    ensures FirstMatch(Run(ops + [register]).expected, ProbedKeys(start.printer, start.filename, start.subtask))
            == if register.printer == start.printer
                  && exists name :: IsKnownAs(register.filename, name) && AsksFor(start.filename, start.subtask, name)
               then register.archive else 0
  {
    var all, probed := ops + [register], ProbedKeys(start.printer, start.filename, start.subtask);
    assert all[..|ops|] == ops;
    var expected := Run(all).expected;
    hide IsKnownAs, AsksFor, ProbedKeys, Aliases;
    assert expected == PutAll(Run(ops).expected, Aliases(register.printer, register.filename), register.archive);
    forall k: Key
      ensures k in probed <==> k.printer == start.printer && AsksFor(start.filename, start.subtask, k.name)
    {
      AsksForExactly(start.printer, start.filename, start.subtask, k);
    }
    forall k: Key
      ensures k in Aliases(register.printer, register.filename)
              <==> k.printer == register.printer && IsKnownAs(register.filename, k.name)
    {
      KnownAsExactly(register.printer, register.filename, k);
    }
    MatchesWhatIsHeld(expected, probed, register.archive);
    if name :| register.printer == start.printer && IsKnownAs(register.filename, name)
               && AsksFor(start.filename, start.subtask, name) {
      assert Key(start.printer, name) in probed && Key(start.printer, name) in expected;
    }
  }

  lemma NameIsFound(register: Op, start: Op, name: string)
    requires register.Registered? && start.Started? && register.archive != 0 && register.printer == start.printer
    requires IsKnownAs(register.filename, name) && AsksFor(start.filename, start.subtask, name)
    ensures FirstMatch(Run([register]).expected, ProbedKeys(start.printer, start.filename, start.subtask))
            == register.archive
  {
    assert [] + [register] == [register];
    StartFindsExactly([], register, start);
    hide IsKnownAs, AsksFor, ProbedKeys;
  }

  lemma CubeIsAskedFor()
    ensures IsKnownAs("Cube.gcode.3mf", "Cube.gcode.3mf")
    ensures AsksFor("", "Cube", "Cube.gcode.3mf") && AsksFor("/data/Cube.gcode.3mf", "", "Cube.gcode.3mf")
  {
    hide Bare;
    assert "Cube" + ".gcode.3mf" == "Cube.gcode.3mf" && "/data" + "/" + "Cube.gcode.3mf" == "/data/Cube.gcode.3mf";
    assert IsLastPart("/data/Cube.gcode.3mf", "Cube.gcode.3mf");
  }

  /** A start with subtask "Cube" picks up "Cube.gcode.3mf", and a path is cut to its last part. */
  lemma CubeIsFound(printer: int, archive: int)
    requires archive != 0
    ensures var expected := Run([Registered(printer, "Cube.gcode.3mf", archive, Nothing, Nothing, 0)]).expected;
            && FirstMatch(expected, ProbedKeys(printer, "", "Cube")) == archive
            && FirstMatch(expected, ProbedKeys(printer, "/data/Cube.gcode.3mf", "")) == archive
  {
    var register := Registered(printer, "Cube.gcode.3mf", archive, Nothing, Nothing, 0);
    hide *;
    CubeIsAskedFor();
    NameIsFound(register, Started(printer, "", "Cube"), "Cube.gcode.3mf");
    NameIsFound(register, Started(printer, "/data/Cube.gcode.3mf", ""), "Cube.gcode.3mf");
  }

  // ---------------------------------------------------------------- an alias that outlives its start

  /**
   After a registration of `base.3mf` and any start, the `.gcode` alias is still there, and names the
   archive, exactly when the start does not probe it.
   */
  lemma {:induction false} GcodeAliasStaysExactlyWhenNotProbed(ops: seq<Op>, register: Op, base: string, start: Op)
    requires register.Registered? && register.filename == base + ".3mf" && start.Started?
    ensures var after, alias := Run(ops + [register] + [start]), Key(register.printer, base + ".gcode");
            && (alias in after.expected
                <==> alias !in ProbedKeys(start.printer, start.filename, start.subtask))
            && (alias in after.expected ==> after.expected[alias] == register.archive)
  {
    var registered, alias := ops + [register], Key(register.printer, base + ".gcode");
    assert registered[..|ops|] == ops && (registered + [start])[..|registered|] == registered;
    assert DropEnd(register.filename, 4) == base && register.filename[|base|..] == ".3mf";
    KeysEvolveAlone(registered + [start], alias);
    hide ProbedKeys, Run;
  }

  /** A name without dots or slashes, as slicers give to plates. */
  predicate IsPlainName(base: string) {
    base != "" && '.' !in base && '/' !in base
  }

  lemma PlainNameProbes(printer: int, base: string)
    requires IsPlainName(base)
    ensures Key(printer, base + ".gcode") !in ProbedKeys(printer, base + ".3mf", base)
  {
    var filename := base + ".3mf";
    AfterLastSlashAbsent(filename);
    WithoutSuffix(base, ".gcode", ".3mf");
    WithoutSuffix(base, ".3mf", ".3mf");
    assert base + ".gcode" != base + ".3mf" && base + ".gcode" != base + ".gcode.3mf" by {
      assert |base + ".gcode"| != |base + ".3mf"|;
      assert |base + ".gcode"| != |base + ".gcode.3mf"|;
    }
  }

  lemma {:induction false} WithoutSuffix(base: string, part: string, suffix: string)
    requires '.' !in base && part in [".gcode", ".3mf"] && suffix in [".gcode", ".3mf"]
    ensures Without(base + suffix, part) == if part == suffix then base else base + suffix
    decreases |base|
  {
    if base == "" {
      assert base + suffix == suffix;
      SuffixAlone(part, suffix);
    } else {
      assert (base + suffix)[0] == base[0] && (base + suffix)[1..] == base[1..] + suffix;
      WithoutSuffix(base[1..], part, suffix);
      assert base == [base[0]] + base[1..];
    }
  }

  lemma SuffixAlone(part: string, suffix: string)
    requires part in [".gcode", ".3mf"] && suffix in [".gcode", ".3mf"]
    ensures Without(suffix, part) == if part == suffix then "" else suffix
  {
    if part == suffix {
      OwnPartGoes(part);
    } else if part == ".gcode" {
      OtherPartStays(".3mf", ".gcode");
    } else {
      OtherPartStays(".gcode", ".3mf");
    }
    hide Without;
  }

  lemma OwnPartGoes(part: string)
    requires part != ""
    ensures Without(part, part) == ""
  {
    assert part[|part|..] == "";
  }

  lemma OtherPartStays(s: string, part: string)
    requires |s| >= 2 && |part| >= 2 && s[1] != part[1] && part[0] !in s[1..]
    ensures Without(s, part) == s
  {
    WithoutAbsent(s[1..], part);
    assert s == [s[0]] + s[1..];
  }

  /**
   Registering `base.3mf` and starting it under that very name consumes two of its three keys: the
   `.gcode` alias stays behind, still naming the archive. It is consumed only by a start that probes it.
   */
  lemma GcodeAliasOutlivesStart(ops: seq<Op>, printer: int, base: string, archive: int, now: int)
    requires IsPlainName(base)
    ensures var register := Registered(printer, base + ".3mf", archive, Nothing, Nothing, now);
            var after := Run(ops + [register] + [Started(printer, base + ".3mf", base)]);
            var alias := Key(printer, base + ".gcode");
            && alias in after.expected && after.expected[alias] == archive
            && Key(printer, base) !in after.expected && Key(printer, base + ".3mf") !in after.expected
  {
    var filename := base + ".3mf";
    var register := Registered(printer, filename, archive, Nothing, Nothing, now);
    var start := Started(printer, filename, base);
    var registered := ops + [register];
    assert registered[..|ops|] == ops && (registered + [start])[..|registered|] == registered;
    assert DropEnd(filename, 4) == base;
    assert filename[|filename| - 4..] == ".3mf";
    PlainNameProbes(printer, base);
    KeysEvolveAlone(registered + [start], Key(printer, base + ".gcode"));
    KeysEvolveAlone(registered + [start], Key(printer, base));
    KeysEvolveAlone(registered + [start], Key(printer, base + ".3mf"));
  }
}
