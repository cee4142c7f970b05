/**
 The second layer detector: `parseGcodeLayerMap` of bambuddy_adapter.js. It reads the whole text at
 once and keeps, for every layer, the byte offset where it starts and the moves of the nozzle.
 */
module LayerMap {
  import opened JsNumber
  import opened Text
  import opened ChunkedParsing

  /** One recorded command, before its coordinates are printed with three decimals. */
  datatype Move = Move(x: real, y: real, z: real)

  datatype LayerZ = NoLayer | LayerAt(z: real)

  /** The local variables of the scan. */
  datatype Scan = Scan(
    x: real, y: real, z: real, e: real,
    relative: bool, relativeE: bool,
    byteOffset: nat,
    currentLayerZ: LayerZ,
    curCmds: seq<Move>,
    layerOffsets: seq<nat>,
    layerCmds: seq<seq<Move>>)

  datatype Result = Result(layerOffsets: seq<nat>, layerCmds: seq<seq<Move>>, totalBytes: nat)

  /** Where a G0/G1 line leads. */
  datatype Target = Target(x: real, y: real, z: real, e: real, hasE: bool)

  type ParseFloat = string -> Number

  const START := Scan(0.0, 0.0, 0.0, 0.0, false, false, 0, NoLayer, [], [], [])

  const MAX_CMDS := 500

  /** `raw.replace(/;.*$/, '')`: the comment must reach the end of the line. */
  function StripComment(raw: string): string {
    if raw == "" then ""
    else if raw[0] == ';' && forall c | c in raw[1..] :: !IsLineTerminator(c) then ""
    else [raw[0]] + StripComment(raw[1..])
  }

  function Parts(raw: string): seq<string> {
    Words(StripComment(raw))
  }

  function Shift(relative: bool, from: real, v: real): real {
    if relative then from + v else v
  }

  /** One argument word of a G0/G1 line; a word whose number does not parse is skipped. */
  function MoveWord(pf: ParseFloat, s: Scan, t: Target, word: string): Target {
    if word == "" then t
    else
      var key, v := Upper(word[0]), pf(word[1..]);
      if v.NaN? then t
      else if key == 'X' then t.(x := Shift(s.relative, s.x, v.value))
      else if key == 'Y' then t.(y := Shift(s.relative, s.y, v.value))
      else if key == 'Z' then t.(z := Shift(s.relative, s.z, v.value))
      else if key == 'E' then t.(e := Shift(s.relativeE, s.e, v.value), hasE := true)
      else t
  }

  function MoveTarget(pf: ParseFloat, s: Scan, words: seq<string>): Target {
    if words == [] then Target(s.x, s.y, s.z, s.e, false)
    else MoveWord(pf, s, MoveTarget(pf, s, words[..|words| - 1]), words[|words| - 1])
  }

  /** G92: the words set coordinates one after the other. */
  function ResetWord(pf: ParseFloat, s: Scan, word: string): Scan {
    if word == "" then s
    else
      var key, v := Upper(word[0]), pf(word[1..]);
      if v.NaN? then s
      else if key == 'X' then s.(x := v.value)
      else if key == 'Y' then s.(y := v.value)
      else if key == 'Z' then s.(z := v.value)
      else if key == 'E' then s.(e := v.value)
      else s
  }

  function ResetTo(pf: ParseFloat, s: Scan, words: seq<string>): Scan {
    if words == [] then s
    else ResetWord(pf, ResetTo(pf, s, words[..|words| - 1]), words[|words| - 1])
  }

  /** The first extrusion at a height other than that of the current layer. */
  predicate BeginsLayer(s: Scan, t: Target) {
    t.hasE && t.e > s.e && s.currentLayerZ != LayerAt(t.z)
  }

  /** Extruding moves and changes of height are worth showing. */
  predicate IsShown(s: Scan, t: Target) {
    t.hasE || t.z != s.z
  }

  function TakeMove(s: Scan, t: Target): Scan {
    var layered :=
      if BeginsLayer(s, t) then
        s.(currentLayerZ := LayerAt(t.z),
           layerCmds :=
             if s.curCmds != [] then s.layerCmds + [s.curCmds]
             else if s.layerOffsets != [] then s.layerCmds + [[]]
             else s.layerCmds,
           curCmds := [],
           layerOffsets := s.layerOffsets + [s.byteOffset])
      else s;
    var recorded :=
      if IsShown(s, t) && |layered.curCmds| < MAX_CMDS
      then layered.(curCmds := layered.curCmds + [Move(t.x, t.y, t.z)]) else layered;
    recorded.(x := t.x, y := t.y, z := t.z, e := t.e)
  }

  datatype Kind = Blank | MoveLine | Absolute | Relative | AbsoluteE | RelativeE | Reset | Ignored

  function KindOf(parts: seq<string>): Kind {
    if parts == [] then Blank
    else
      var g := UpperAll(parts[0]);
      if g == "G90" then Absolute
      else if g == "G91" then Relative
      else if g == "M82" then AbsoluteE
      else if g == "M83" then RelativeE
      else if g == "G92" then Reset
      else if g == "G0" || g == "G1" then MoveLine
      else Ignored
  }

  function Interpret(pf: ParseFloat, s: Scan, kind: Kind, args: seq<string>): Scan {
    match kind
    case Absolute => s.(relative := false, relativeE := false)
    case Relative => s.(relative := true, relativeE := true)
    case AbsoluteE => s.(relativeE := false)
    case RelativeE => s.(relativeE := true)
    case Reset => ResetTo(pf, s, args)
    case MoveLine => TakeMove(s, MoveTarget(pf, s, args))
    case Blank => s
    case Ignored => s
  }

  function Tail(parts: seq<string>): seq<string> {
    if parts == [] then [] else parts[1..]
  }

  function ScanLine(pf: ParseFloat, s: Scan, raw: string): Scan {
    var parts := Parts(raw);
    var after := Interpret(pf, s, KindOf(parts), Tail(parts));
    after.(byteOffset := s.byteOffset + |raw| + 1)
  }

  function ScanLines(pf: ParseFloat, lines: seq<string>): Scan {
    if lines == [] then START
    else ScanLine(pf, ScanLines(pf, lines[..|lines| - 1]), lines[|lines| - 1])
  }

  function Finish(s: Scan): Result {
    Result(s.layerOffsets, if s.curCmds != [] then s.layerCmds + [s.curCmds] else s.layerCmds, s.byteOffset)
  }

  function LayerMapOf(pf: ParseFloat, text: string): Result {
    Finish(ScanLines(pf, Split(text, '\n')))
  }

  method ReadTarget(pf: ParseFloat, s: Scan, parts: seq<string>) returns (t: Target)
    ensures t == MoveTarget(pf, s, Tail(parts))
  {
    ghost var args := Tail(parts);
    t := Target(s.x, s.y, s.z, s.e, false);
    var p := 1;
    while p < |parts|
      invariant 1 <= p <= |args| + 1
      invariant t == MoveTarget(pf, s, args[..p - 1])
    {
      t := MoveWord(pf, s, t, parts[p]);
      assert args[..p][..p - 1] == args[..p - 1] && args[p - 1] == parts[p];
      p := p + 1;
    }
    assert args[..|args|] == args;
  }

  method ReadReset(pf: ParseFloat, s: Scan, parts: seq<string>) returns (r: Scan)
    ensures r == ResetTo(pf, s, Tail(parts))
  {
    ghost var args := Tail(parts);
    r := s;
    var p := 1;
    while p < |parts|
      invariant 1 <= p <= |args| + 1
      invariant r == ResetTo(pf, s, args[..p - 1])
    {
      r := ResetWord(pf, r, parts[p]);
      assert args[..p][..p - 1] == args[..p - 1] && args[p - 1] == parts[p];
      p := p + 1;
    }
    assert args[..|args|] == args;
  }

  lemma NothingRead(pf: ParseFloat)
    ensures ScanLines(pf, []) == START
  {}

  lemma NextLineRead(pf: ParseFloat, lines: seq<string>, i: nat)
    requires i < |lines|
    ensures ScanLines(pf, lines[..i + 1]) == ScanLine(pf, ScanLines(pf, lines[..i]), lines[i])
  {
    hide ScanLine;
    assert lines[..i + 1][..i] == lines[..i];
  }

  method ParseGcodeLayerMap(pf: ParseFloat, text: string) returns (result: Result)
    ensures result == LayerMapOf(pf, text)
  {
    hide KindOf, Parts, TakeMove, ScanLines, ResetTo, MoveTarget, Tail;
    var lines := Split(text, '\n');
    var s := START;
    NothingRead(pf);
    var i := 0;
    while i < |lines|
      invariant 0 <= i <= |lines|
      invariant s == ScanLines(pf, lines[..i])
    {
      var parts, byteOffset := Parts(lines[i]), s.byteOffset;
      match KindOf(parts) {
        case Blank =>
        case Absolute => s := s.(relative := false, relativeE := false);
        case Relative => s := s.(relative := true, relativeE := true);
        case AbsoluteE => s := s.(relativeE := false);
        case RelativeE => s := s.(relativeE := true);
        case Reset => s := ReadReset(pf, s, parts);
        case MoveLine =>
          var t := ReadTarget(pf, s, parts);
          s := TakeMove(s, t);
        case Ignored =>
      }
      s := s.(byteOffset := byteOffset + |lines[i]| + 1);
      NextLineRead(pf, lines, i);
      i := i + 1;
    }
    assert lines[..i] == lines;
    if |s.curCmds| > 0 {
      s := s.(layerCmds := s.layerCmds + [s.curCmds]);
    }
    result := Result(s.layerOffsets, s.layerCmds, s.byteOffset);
  }

  // ---------------------------------------------------------------- which move belongs to which layer

  /** A move worth showing, with the number of layers begun by the end of its line. */
  datatype Event = Event(layer: nat, move: Move)

  function Events(pf: ParseFloat, lines: seq<string>): seq<Event> {
    if lines == [] then []
    else
      var front := lines[..|lines| - 1];
      Events(pf, front) + EventOf(pf, ScanLines(pf, front), lines[|lines| - 1])
  }

  function EventOf(pf: ParseFloat, s: Scan, raw: string): seq<Event> {
    var parts := Parts(raw);
    if !KindOf(parts).MoveLine? then []
    else
      var t := MoveTarget(pf, s, Tail(parts));
      if !IsShown(s, t) then []
      else [Event(|s.layerOffsets| + if BeginsLayer(s, t) then 1 else 0, Move(t.x, t.y, t.z))]
  }

  /** The moves of one layer, in order; layer 0 is what precedes the first layer. */
  function MovesOf(events: seq<Event>, layer: nat): seq<Move> {
    if events == [] then []
    else
      var last := events[|events| - 1];
      MovesOf(events[..|events| - 1], layer) + if last.layer == layer then [last.move] else []
  }

  function FirstMoves(events: seq<Event>, layer: nat): seq<Move> {
    var moves := MovesOf(events, layer);
    if |moves| <= 500 then moves else moves[..500]
  }

  function Lead(events: seq<Event>): seq<seq<Move>> {
    if MovesOf(events, 0) == [] then [] else [FirstMoves(events, 0)]
  }

  /** The moves before the first layer, if any, and then the moves of layers 1 to `n`. */
  function Arranged(events: seq<Event>, n: nat): seq<seq<Move>> {
    if n == 0 then Lead(events) else Arranged(events, n - 1) + [FirstMoves(events, n)]
  }

  lemma AppendEvent(events: seq<Event>, event: Event, layer: nat)
    ensures MovesOf(events + [event], layer)
            == if event.layer == layer then MovesOf(events, layer) + [event.move] else MovesOf(events, layer)
  {
    assert (events + [event])[..|events|] == events;
  }

  lemma {:induction false} ArrangedUnchanged(events: seq<Event>, event: Event, n: nat)
    requires event.layer > n
    ensures Arranged(events + [event], n) == Arranged(events, n)
  {
    AppendEvent(events, event, n);
    if n > 0 {
      ArrangedUnchanged(events, event, n - 1);
    }
  }

  /** What the scan has recorded so far, against the events so far. */
  ghost predicate InStep(s: Scan, events: seq<Event>) {
    var n := |s.layerOffsets|;
    && s.curCmds == FirstMoves(events, n)
    && (n > 0 ==> s.curCmds != [])
    && s.layerCmds == (if n == 0 then [] else Arranged(events, n - 1))
    && NothingAbove(events, n)
  }

  ghost predicate NothingAbove(events: seq<Event>, n: nat) {
    forall k | k > n :: MovesOf(events, k) == []
  }

  lemma FirstMovesAppend(events: seq<Event>, event: Event)
    ensures var before := FirstMoves(events, event.layer);
            FirstMoves(events + [event], event.layer)
            == if |before| < MAX_CMDS then before + [event.move] else before
  {
    AppendEvent(events, event, event.layer);
  }

  /** A shown move that stays in the current layer. */
  lemma RecordStaysInStep(s: Scan, s': Scan, move: Move, events: seq<Event>)
    requires InStep(s, events)
    requires s'.layerOffsets == s.layerOffsets && s'.layerCmds == s.layerCmds
    requires s'.curCmds == if |s.curCmds| < MAX_CMDS then s.curCmds + [move] else s.curCmds
    ensures InStep(s', events + [Event(|s.layerOffsets|, move)])
  {
    var n := |s.layerOffsets|;
    var event := Event(n, move);
    hide FirstMoves, NothingAbove, Arranged;
    FirstMovesAppend(events, event);
    NoLaterMoves(events, event, n);
    if n > 0 {
      ArrangedUnchanged(events, event, n - 1);
    }
    CurrentIsInStep(s', events + [event], n);
  }

  lemma NoLaterMoves(events: seq<Event>, event: Event, n: nat)
    requires NothingAbove(events, n) && n <= event.layer
    ensures NothingAbove(events + [event], event.layer)
  {
    forall k | k > event.layer ensures MovesOf(events + [event], k) == [] {
      AppendEvent(events, event, k);
    }
  }

  lemma NoMoves(events: seq<Event>, n: nat)
    requires NothingAbove(events, n)
    ensures MovesOf(events, n + 1) == []
  {
    hide MovesOf;
  }

  lemma CurrentIsInStep(s: Scan, events: seq<Event>, n: nat)
    requires |s.layerOffsets| == n && s.curCmds == FirstMoves(events, n) && (n > 0 ==> s.curCmds != [])
    requires s.layerCmds == if n == 0 then [] else Arranged(events, n - 1)
    requires NothingAbove(events, n)
    ensures InStep(s, events)
  {
    hide FirstMoves, NothingAbove, Arranged;
  }

  /** The commands of all layers but the current one, and then those of the current one. */
  lemma CompletedLayers(s: Scan, events: seq<Event>)
    requires InStep(s, events)
    ensures Arranged(events, |s.layerOffsets|)
            == if s.curCmds != [] then s.layerCmds + [s.curCmds]
               else if s.layerOffsets != [] then s.layerCmds + [[]] else s.layerCmds
  {
    hide MovesOf, FirstMoves;
    FirstMovesEmpty(events, 0);
  }

  /** A move that begins a layer: the commands of the layer before it are complete. */
  lemma BeginStaysInStep(s: Scan, s': Scan, move: Move, events: seq<Event>)
    requires InStep(s, events)
    requires |s'.layerOffsets| == |s.layerOffsets| + 1
    requires s'.layerCmds == if s.curCmds != [] then s.layerCmds + [s.curCmds]
                             else if s.layerOffsets != [] then s.layerCmds + [[]] else s.layerCmds
    requires s'.curCmds == [move]
    ensures InStep(s', events + [Event(|s'.layerOffsets|, move)])
  {
    var n := |s.layerOffsets|;
    var event := Event(n + 1, move);
    CompletedLayers(s, events);
    NoMoves(events, n);
    hide MovesOf, FirstMoves, Arranged, NothingAbove;
    FirstMovesAppend(events, event);
    FirstMovesEmpty(events, n + 1);
    NoLaterMoves(events, event, n);
    ArrangedUnchanged(events, event, n);
    CurrentIsInStep(s', events + [event], n + 1);
  }

  lemma FirstMovesEmpty(events: seq<Event>, layer: nat)
    ensures FirstMoves(events, layer) == [] <==> MovesOf(events, layer) == []
  {
    hide MovesOf;
  }

  lemma BeginningMove(s: Scan, t: Target)
    requires BeginsLayer(s, t)
    ensures var after := TakeMove(s, t);
            && IsShown(s, t) && after.curCmds == [Move(t.x, t.y, t.z)]
            && after.layerOffsets == s.layerOffsets + [s.byteOffset] && after.currentLayerZ == LayerAt(t.z)
            && after.layerCmds == if s.curCmds != [] then s.layerCmds + [s.curCmds]
                                  else if s.layerOffsets != [] then s.layerCmds + [[]] else s.layerCmds
  {}

  lemma OtherMove(s: Scan, t: Target)
    requires !BeginsLayer(s, t)
    ensures var after := TakeMove(s, t);
            && after.layerOffsets == s.layerOffsets && after.layerCmds == s.layerCmds
            && after.currentLayerZ == s.currentLayerZ
            && after.curCmds == if IsShown(s, t) && |s.curCmds| < MAX_CMDS
                                then s.curCmds + [Move(t.x, t.y, t.z)] else s.curCmds
  {}

  lemma TakeMoveStaysInStep(s: Scan, t: Target, events: seq<Event>)
    requires InStep(s, events)
    ensures var n := |s.layerOffsets| + if BeginsLayer(s, t) then 1 else 0;
            InStep(TakeMove(s, t),
                   if IsShown(s, t) then events + [Event(n, Move(t.x, t.y, t.z))] else events)
  {
    hide InStep, TakeMove, IsShown, BeginsLayer;
    var move := Move(t.x, t.y, t.z);
    var after := TakeMove(s, t);
    if BeginsLayer(s, t) {
      BeginningMove(s, t);
      BeginStaysInStep(s, after, move, events);
    } else {
      OtherMove(s, t);
      if IsShown(s, t) {
        RecordStaysInStep(s, after, move, events);
      } else {
        OnlyRecordMatters(s, after, events);
      }
    }
  }

  lemma LineStaysInStep(pf: ParseFloat, s: Scan, raw: string, events: seq<Event>)
    requires InStep(s, events)
    ensures InStep(ScanLine(pf, s, raw), events + EventOf(pf, s, raw))
  {
    hide KindOf, Parts, InStep, TakeMove;
    var parts := Parts(raw);
    var after := Interpret(pf, s, KindOf(parts), Tail(parts));
    if KindOf(parts).MoveLine? {
      var t := MoveTarget(pf, s, Tail(parts));
      TakeMoveStaysInStep(s, t, events);
    } else {
      ResetKeepsRecord(pf, s, Tail(parts));
      OnlyRecordMatters(s, after, events);
    }
    var all := events + EventOf(pf, s, raw);
    assert EventOf(pf, s, raw) == [] ==> all == events;
    OnlyRecordMatters(after, ScanLine(pf, s, raw), all);
  }

  lemma {:induction false} ScanStaysInStep(pf: ParseFloat, lines: seq<string>)
    ensures InStep(ScanLines(pf, lines), Events(pf, lines))
  {
    hide ScanLine, InStep, EventOf;
    if lines == [] {
      NothingScanned();
    } else {
      var front := lines[..|lines| - 1];
      ScanStaysInStep(pf, front);
      LineStaysInStep(pf, ScanLines(pf, front), lines[|lines| - 1], Events(pf, front));
    }
  }

  lemma NothingScanned()
    ensures InStep(START, [])
  {}

  lemma OnlyRecordMatters(s: Scan, s': Scan, events: seq<Event>)
    requires InStep(s, events)
    requires s'.layerOffsets == s.layerOffsets && s'.layerCmds == s.layerCmds && s'.curCmds == s.curCmds
    ensures InStep(s', events)
  {}

  lemma {:induction false} ResetKeepsRecord(pf: ParseFloat, s: Scan, words: seq<string>)
    ensures var after := ResetTo(pf, s, words);
            s == after.(x := s.x, y := s.y, z := s.z, e := s.e)
  {
    if words != [] {
      ResetKeepsRecord(pf, s, words[..|words| - 1]);
    }
  }

  // ---------------------------------------------------------------- heights and offsets

  /** Each layer starts with the move that began it; neighbouring layers differ in height. */
  ghost predicate HeightsAlternate(events: seq<Event>, n: nat) {
    && (forall k | 1 <= k <= n :: MovesOf(events, k) != [])
    && (forall k | 1 <= k < n :: MovesOf(events, k)[0].z != MovesOf(events, k + 1)[0].z)
  }

  ghost predicate Tracks(s: Scan, events: seq<Event>) {
    var n := |s.layerOffsets|;
    && HeightsAlternate(events, n)
    && MovesOf(events, n + 1) == []
    && LayersUpTo(events, n)
    && (n > 0 ==> s.currentLayerZ == LayerAt(MovesOf(events, n)[0].z))
  }

  ghost predicate LayersUpTo(events: seq<Event>, n: nat) {
    forall e | e in events :: e.layer <= n
  }

  lemma NextLayersUpTo(events: seq<Event>, event: Event, n: nat)
    requires LayersUpTo(events, n) && n <= event.layer
    ensures LayersUpTo(events + [event], event.layer)
  {}

  lemma {:induction false} NoMovesAbove(events: seq<Event>, n: nat)
    requires LayersUpTo(events, n)
    ensures MovesOf(events, n + 1) == []
  {
    if events != [] {
      NoMovesAbove(events[..|events| - 1], n);
    }
  }

  lemma EventKeepsHeights(events: seq<Event>, event: Event, n: nat)
    requires HeightsAlternate(events, n)
    ensures HeightsAlternate(events + [event], n)
    ensures forall k | 1 <= k <= n :: MovesOf(events + [event], k)[0] == MovesOf(events, k)[0]
  {
    forall k | 1 <= k <= n
      ensures MovesOf(events + [event], k) != [] && MovesOf(events + [event], k)[0] == MovesOf(events, k)[0]
    {
      AppendEvent(events, event, k);
    }
  }

  lemma BeginTracks(s: Scan, s': Scan, move: Move, events: seq<Event>)
    requires Tracks(s, events) && s.currentLayerZ != LayerAt(move.z)
    requires |s'.layerOffsets| == |s.layerOffsets| + 1 && s'.currentLayerZ == LayerAt(move.z)
    ensures Tracks(s', events + [Event(|s'.layerOffsets|, move)])
  {
    var n := |s.layerOffsets|;
    var event := Event(n + 1, move);
    hide MovesOf, HeightsAlternate, LayersUpTo;
    NextHeight(events, event, n, s.currentLayerZ);
    NextLayersUpTo(events, event, n);
    NoMovesAbove(events + [event], n + 1);
  }

  /** A move that begins a layer at another height than that of the current one. */
  lemma NextHeight(events: seq<Event>, event: Event, n: nat, current: LayerZ)
    requires HeightsAlternate(events, n) && MovesOf(events, n + 1) == [] && event.layer == n + 1
    requires n > 0 ==> current == LayerAt(MovesOf(events, n)[0].z)
    requires current != LayerAt(event.move.z)
    ensures HeightsAlternate(events + [event], n + 1) && MovesOf(events + [event], n + 1) == [event.move]
  {
    hide MovesOf;
    EventKeepsHeights(events, event, n);
    AppendEvent(events, event, n + 1);
    var after := events + [event];
    forall k | 1 <= k < n + 1 ensures MovesOf(after, k)[0].z != MovesOf(after, k + 1)[0].z {
      assert MovesOf(after, k)[0] == MovesOf(events, k)[0];
    }
  }

  lemma RecordTracks(s: Scan, s': Scan, move: Move, events: seq<Event>)
    requires Tracks(s, events)
    requires s'.layerOffsets == s.layerOffsets && s'.currentLayerZ == s.currentLayerZ
    ensures Tracks(s', events + [Event(|s.layerOffsets|, move)])
  {
    var n := |s.layerOffsets|;
    var event := Event(n, move);
    hide MovesOf, HeightsAlternate, LayersUpTo;
    if n > 0 {
      FirstMoveStays(events, event, n);
    }
    EventKeepsHeights(events, event, n);
    NextLayersUpTo(events, event, n);
    NoMovesAbove(events + [event], n);
  }

  lemma FirstMoveStays(events: seq<Event>, event: Event, k: nat)
    requires HeightsAlternate(events, k) && k > 0
    ensures MovesOf(events, k) != [] && MovesOf(events + [event], k) != []
    ensures MovesOf(events + [event], k)[0] == MovesOf(events, k)[0]
  {
    AppendEvent(events, event, k);
  }

  lemma TakeMoveTracks(s: Scan, t: Target, events: seq<Event>)
    requires Tracks(s, events)
    ensures var n := |s.layerOffsets| + if BeginsLayer(s, t) then 1 else 0;
            Tracks(TakeMove(s, t), if IsShown(s, t) then events + [Event(n, Move(t.x, t.y, t.z))] else events)
  {
    hide Tracks, TakeMove, IsShown;
    var move := Move(t.x, t.y, t.z);
    if BeginsLayer(s, t) {
      BeginningMove(s, t);
      BeginTracks(s, TakeMove(s, t), move, events);
    } else {
      OtherMove(s, t);
      if IsShown(s, t) {
        RecordTracks(s, TakeMove(s, t), move, events);
      } else {
        OnlyLayersMatter(s, TakeMove(s, t), events);
      }
    }
  }

  lemma LineTracks(pf: ParseFloat, s: Scan, raw: string, events: seq<Event>)
    requires Tracks(s, events)
    ensures Tracks(ScanLine(pf, s, raw), events + EventOf(pf, s, raw))
  {
    hide KindOf, Parts, Tracks, TakeMove;
    var parts := Parts(raw);
    var after := Interpret(pf, s, KindOf(parts), Tail(parts));
    if KindOf(parts).MoveLine? {
      TakeMoveTracks(s, MoveTarget(pf, s, Tail(parts)), events);
    } else {
      ResetKeepsRecord(pf, s, Tail(parts));
      OnlyLayersMatter(s, after, events);
    }
    var all := events + EventOf(pf, s, raw);
    assert EventOf(pf, s, raw) == [] ==> all == events;
    OnlyLayersMatter(after, ScanLine(pf, s, raw), all);
  }

  lemma OnlyLayersMatter(s: Scan, s': Scan, events: seq<Event>)
    requires Tracks(s, events)
    requires s'.layerOffsets == s.layerOffsets && s'.currentLayerZ == s.currentLayerZ
    ensures Tracks(s', events)
  {}

  lemma {:induction false} ScanTracks(pf: ParseFloat, lines: seq<string>)
    ensures Tracks(ScanLines(pf, lines), Events(pf, lines))
  {
    hide ScanLine, EventOf;
    if lines != [] {
      hide Tracks;
      var front := lines[..|lines| - 1];
      ScanTracks(pf, front);
      LineTracks(pf, ScanLines(pf, front), lines[|lines| - 1], Events(pf, front));
    }
  }

  /** The byte offset of line `i`. */
  function LineStart(lines: seq<string>, i: nat): nat
    requires i <= |lines|
  {
    if i == 0 then 0 else LineStart(lines, i - 1) + |lines[i - 1]| + 1
  }

  lemma {:induction false} LineStartPrefix(lines: seq<string>, front: seq<string>, i: nat)
    requires i <= |front| && front <= lines
    ensures LineStart(front, i) == LineStart(lines, i)
  {
    if i > 0 {
      LineStartPrefix(lines, front, i - 1);
    }
  }

  ghost predicate IsLineStart(lines: seq<string>, offset: nat) {
    exists i | 0 <= i < |lines| :: offset == LineStart(lines, i)
  }

  ghost predicate AllBelow(offsets: seq<nat>, bound: nat) {
    forall o | o in offsets :: o < bound
  }

  /** Offsets are strictly increasing starts of lines already read. */
  ghost predicate OffsetsAreLineStarts(offsets: seq<nat>, lines: seq<string>) {
    && (forall o | o in offsets :: IsLineStart(lines, o))
    && (forall j, k | 0 <= j < k < |offsets| :: offsets[j] < offsets[k])
  }

  lemma LineAddsOffset(pf: ParseFloat, s: Scan, raw: string)
    ensures var offsets := ScanLine(pf, s, raw).layerOffsets;
            offsets == s.layerOffsets || offsets == s.layerOffsets + [s.byteOffset]
    ensures ScanLine(pf, s, raw).byteOffset == s.byteOffset + |raw| + 1
  {
    hide KindOf, Parts;
    ResetKeepsRecord(pf, s, Tail(Parts(raw)));
  }

  lemma OffsetsExtend(offsets: seq<nat>, front: seq<string>, lines: seq<string>)
    requires OffsetsAreLineStarts(offsets, front) && front <= lines
    ensures OffsetsAreLineStarts(offsets, lines)
  {
    forall o | o in offsets ensures IsLineStart(lines, o) {
      var i :| 0 <= i < |front| && o == LineStart(front, i);
      LineStartPrefix(lines, front, i);
      assert o == LineStart(lines, i);
    }
  }

  lemma {:induction false} ScanOffsets(pf: ParseFloat, lines: seq<string>)
    ensures var s := ScanLines(pf, lines);
            && s.byteOffset == LineStart(lines, |lines|)
            && OffsetsAreLineStarts(s.layerOffsets, lines)
            && AllBelow(s.layerOffsets, s.byteOffset)
  {
    if lines == [] {
      assert OffsetsAreLineStarts([], lines);
    } else {
      hide ScanLine, OffsetsAreLineStarts, LineStart;
      var front, raw := lines[..|lines| - 1], lines[|lines| - 1];
      ScanOffsets(pf, front);
      var s := ScanLines(pf, front);
      LineAddsOffset(pf, s, raw);
      NextOffsets(s.layerOffsets, ScanLine(pf, s, raw).layerOffsets, s.byteOffset, lines);
    }
  }

  lemma NextOffsets(offsets: seq<nat>, offsets': seq<nat>, o: nat, lines: seq<string>)
    requires lines != [] && OffsetsAreLineStarts(offsets, lines[..|lines| - 1]) && AllBelow(offsets, o)
    requires o == LineStart(lines[..|lines| - 1], |lines| - 1)
    requires offsets' == offsets || offsets' == offsets + [o]
    ensures LineStart(lines, |lines|) == o + |lines[|lines| - 1]| + 1
    ensures OffsetsAreLineStarts(offsets', lines) && AllBelow(offsets', LineStart(lines, |lines|))
  {
    hide OffsetsAreLineStarts, LineStart;
    var front := lines[..|lines| - 1];
    NextLineStart(lines);
    LineStartPrefix(lines, front, |front|);
    OffsetsExtend(offsets, front, lines);
    AppendOffset(offsets, lines, o, |front|);
  }

  lemma NextLineStart(lines: seq<string>)
    requires lines != []
    ensures LineStart(lines, |lines|) == LineStart(lines, |lines| - 1) + |lines[|lines| - 1]| + 1
  {}

  lemma AppendOffset(offsets: seq<nat>, lines: seq<string>, o: nat, i: nat)
    requires OffsetsAreLineStarts(offsets, lines) && i < |lines| && o == LineStart(lines, i)
    requires AllBelow(offsets, o)
    ensures OffsetsAreLineStarts(offsets + [o], lines)
  {
    assert IsLineStart(lines, o);
    forall j | 0 <= j < |offsets| ensures offsets[j] < o {
      assert offsets[j] in offsets;
    }
  }

  lemma {:induction false} SplitLength(text: string)
    ensures Weight(Split(text, '\n')) == |text| + 1
  {
    if text != "" {
      SplitLength(text[1..]);
      var rest := Split(text[1..], '\n');
      if text[0] == '\n' {
        assert ([""] + rest)[1..] == rest;
      } else {
        assert ([[text[0]] + rest[0]] + rest[1..])[1..] == rest[1..];
      }
    }
  }

  lemma {:induction false} LineStartIsWeight(lines: seq<string>, i: nat)
    requires i <= |lines|
    ensures LineStart(lines, i) + Weight(lines[i..]) == Weight(lines)
  {
    if i > 0 {
      LineStartIsWeight(lines, i - 1);
      assert lines[i - 1..][1..] == lines[i..];
    }
  }

  lemma {:induction false} ArrangedShape(events: seq<Event>, n: nat)
    requires forall k | 1 <= k <= n :: MovesOf(events, k) != []
    ensures var lead := |Lead(events)|;
            && |Arranged(events, n)| == n + lead
            && (lead == 1 ==> Arranged(events, n)[0] == FirstMoves(events, 0))
            && (forall k | lead <= k < n + lead :: Arranged(events, n)[k] == FirstMoves(events, k - lead + 1))
  {
    if n > 0 {
      ArrangedShape(events, n - 1);
    }
  }

  // ---------------------------------------------------------------- the shape of the result

  /** The commands come in the order of the layers, after those before the first layer, if any. */
  lemma CommandsFollowLayers(pf: ParseFloat, text: string)
    ensures var r, events := LayerMapOf(pf, text), Events(pf, Split(text, '\n'));
            && r.layerCmds == Arranged(events, |r.layerOffsets|)
            && |r.layerCmds| == |r.layerOffsets| + (if MovesOf(events, 0) == [] then 0 else 1)
            && (forall cmds | cmds in r.layerCmds :: 0 < |cmds| <= MAX_CMDS)
            && HeightsAlternate(events, |r.layerOffsets|)
  {
    hide ScanLines, Events;
    var lines := Split(text, '\n');
    var s, events := ScanLines(pf, lines), Events(pf, lines);
    var r, n := LayerMapOf(pf, text), |s.layerOffsets|;
    ScanStaysInStep(pf, lines);
    ScanTracks(pf, lines);
    ArrangedShape(events, n);
    assert r.layerCmds == Arranged(events, n);
    var lead := |Lead(events)|;
    forall k | 0 <= k < |r.layerCmds| ensures 0 < |r.layerCmds[k]| <= MAX_CMDS {
      if k >= lead {
        assert MovesOf(events, k - lead + 1) != [];
      }
    }
  }

  /** Offsets are strictly increasing line starts; the total counts one break too many. */
  lemma OffsetsFollowLines(pf: ParseFloat, text: string)
    ensures var r := LayerMapOf(pf, text);
            && r.totalBytes == |text| + 1
            && OffsetsAreLineStarts(r.layerOffsets, Split(text, '\n'))
            && forall o | o in r.layerOffsets :: o < r.totalBytes
  {
    var lines := Split(text, '\n');
    ScanOffsets(pf, lines);
    SplitLength(text);
    LineStartIsWeight(lines, |lines|);
  }

  /** Entry `k` of `layerCmds` holds the moves of layer `k` of `layerOffsets`, as the comment promises. */
  ghost predicate Aligned(r: Result, events: seq<Event>) {
    && |r.layerCmds| == |r.layerOffsets|
    && forall k | 0 <= k < |r.layerOffsets| :: r.layerCmds[k] == FirstMoves(events, k + 1)
  }

  /** The two lists line up exactly when no recorded move precedes the first layer. */
  lemma AlignedExactlyWithoutLead(pf: ParseFloat, text: string)
    ensures var events := Events(pf, Split(text, '\n'));
            Aligned(LayerMapOf(pf, text), events) <==> MovesOf(events, 0) == []
  {
    hide ScanLines, Events;
    CommandsFollowLayers(pf, text);
    ArrangedShape(Events(pf, Split(text, '\n')), |LayerMapOf(pf, text).layerOffsets|);
  }
}
