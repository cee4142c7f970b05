/**
 From a file position back to what is visible: `syncGcodeObjToFilePos` over the layer objects that a
 finished parser has put into the scene.
 */
module ViewerSync {
  import opened GcodeViewer
  import opened ChunkedParsing
  import opened Wrappers

  // ---------------------------------------------------------------- the scene

  class LayerObject {
    const userData: LayerData
    var visible: bool
    var maxInstancedCount: nat

    constructor (userData: LayerData)
      ensures this.userData == userData && visible && maxInstancedCount == userData.numLines
    {
      this.userData := userData;
      visible, maxInstancedCount := true, userData.numLines;
    }

    /** What is drawn of the object: the line count of a hidden one does not matter. */
    function Shows(): Shown
      reads this
    {
      if visible then Lines(maxInstancedCount) else Hidden
    }
  }

  datatype Shown = Hidden | Lines(count: nat)

  /** "way after": the first recorded position lies beyond `p`. */
  predicate IsAfter(d: LayerData, p: int) {
    d.filePositions != [] && d.filePositions[0] > p
  }

  /** How far the scan of the recorded positions gets before one reaches `p`. */
  function ScanBelow(positions: seq<nat>, p: int): (count: nat)
    ensures count <= |positions|
    ensures forall i | 0 <= i < count :: positions[i] < p
    ensures count < |positions| ==> positions[count] >= p
  {
    if positions == [] || positions[0] >= p then 0 else 1 + ScanBelow(positions[1..], p)
  }

  function LinesShown(d: LayerData, p: int, perSegment: nat): nat {
    var count := ScanBelow(d.filePositions, p) * perSegment;
    if count <= d.numLines then count else d.numLines
  }

  function ShownAt(d: LayerData, p: int, perSegment: nat): Shown {
    if IsAfter(d, p) then Hidden else Lines(LinesShown(d, p, perSegment))
  }

  /** A scan that stops at the first position not below `p` gives the lines to show. */
  lemma ScanStopsHere(d: LayerData, p: int, count: nat, showMirror: bool)
    requires count <= |d.filePositions| && (forall i | 0 <= i < count :: d.filePositions[i] < p)
    requires count < |d.filePositions| ==> d.filePositions[count] >= p
    ensures var lines := if showMirror then count * 2 else count;
            LinesShown(d, p, if showMirror then 2 else 1) == if lines <= d.numLines then lines else d.numLines
  {
    assert count == ScanBelow(d.filePositions, p);
  }

  /** The layer number the last object that is not after `p` carries; 0 when all are after it. */
  function SyncLayer(drawn: seq<LayerData>, p: int): nat {
    if drawn == [] then 0
    else
      var last := drawn[|drawn| - 1];
      if IsAfter(last, p) then SyncLayer(drawn[..|drawn| - 1], p) else last.layerNumber
  }

  lemma NothingSynced(p: int)
    ensures SyncLayer([], p) == 0
  {}

  lemma SyncLayerSnoc(drawn: seq<LayerData>, n: nat, p: int)
    requires n < |drawn|
    ensures SyncLayer(drawn[..n + 1], p)
            == if IsAfter(drawn[n], p) then SyncLayer(drawn[..n], p) else drawn[n].layerNumber
  {
    assert drawn[..n + 1][..n] == drawn[..n];
  }

  function VisibleLines(drawn: seq<LayerData>, p: int, perSegment: nat): nat {
    if drawn == [] then 0
    else
      var last := drawn[|drawn| - 1];
      VisibleLines(drawn[..|drawn| - 1], p, perSegment)
      + if IsAfter(last, p) then 0 else LinesShown(last, p, perSegment)
  }

  /** The lines the scene shows now. */
  ghost function LinesOnScreen(children: seq<LayerObject>): nat
    reads children
  {
    if children == [] then 0
    else
      var last := children[|children| - 1];
      LinesOnScreen(children[..|children| - 1]) + if last.visible then last.maxInstancedCount else 0
  }

  function DataOfAll(children: seq<LayerObject>): (data: seq<LayerData>)
    ensures |data| == |children| && forall i | 0 <= i < |data| :: data[i] == children[i].userData
  {
    seq(|children|, i requires 0 <= i < |children| => children[i].userData)
  }

  /** An object is hidden when it lies after `p`, and otherwise shows what was recorded before `p`. */
  ghost predicate IsSynced(child: LayerObject, p: int, perSegment: nat)
    reads child
  {
    child.Shows() == ShownAt(child.userData, p, perSegment)
  }

  /** The part of the scan that counts the lines of one object. */
  method CountLines(d: LayerData, filePosition: int, showMirror: bool) returns (lines: nat)
    ensures lines == LinesShown(d, filePosition, if showMirror then 2 else 1)
  {
    var count := 0;
    while count < |d.filePositions| && d.filePositions[count] < filePosition
      invariant 0 <= count <= |d.filePositions|
      invariant forall i | 0 <= i < count :: d.filePositions[i] < filePosition
    {
      count := count + 1;
    }
    ScanStopsHere(d, filePosition, count, showMirror);
    if showMirror {
      count := count * 2;
    }
    lines := if count <= d.numLines then count else d.numLines;
  }

  /** An element of an array: `undefined` at an index outside. */
  function ElementAt(positions: seq<nat>, i: nat): Maybe<nat> {
    if i < |positions| then Just(positions[i]) else Nothing
  }

  /** Comparisons with `undefined` are false. */
  predicate IsBelow(a: Maybe<nat>, p: int) {
    a.Just? && a.value < p
  }

  predicate IsBeyond(a: Maybe<nat>, p: int) {
    a.Just? && a.value > p
  }

  lemma NothingAtLength(positions: seq<nat>)
    ensures ElementAt(positions, |positions|) == Nothing
  {}

  lemma FirstIsBeyond(d: LayerData, p: int)
    ensures IsBeyond(ElementAt(d.filePositions, 0), p) <==> IsAfter(d, p)
  {}

  /** The visit of one object. The first branch, for an object way before, reads past the end and is not taken. */
  method SyncObject(child: LayerObject, filePosition: int, showMirror: bool, reached: nat)
    returns (syncLayerNumber: nat)
    modifies child
    ensures syncLayerNumber == if IsAfter(child.userData, filePosition) then reached else child.userData.layerNumber
    ensures IsSynced(child, filePosition, if showMirror then 2 else 1)
  {
    hide ElementAt, ScanBelow, LinesShown;
    syncLayerNumber := reached;
    var filePositions := child.userData.filePositions;
    var fpMin := ElementAt(filePositions, 0);
    var fpMax := ElementAt(filePositions, |filePositions|);
    if IsBelow(fpMax, filePosition) {
      child.visible := true;
      child.maxInstancedCount := child.userData.numLines;
      NothingAtLength(filePositions);
      assert false;
    } else if IsBeyond(fpMin, filePosition) {
      child.visible := false;
    } else {
      child.visible := true;
      child.maxInstancedCount := CountLines(child.userData, filePosition, showMirror);
      syncLayerNumber := child.userData.layerNumber;
    }
    FirstIsBeyond(child.userData, filePosition);
  }

  method SyncToFilePos(children: seq<LayerObject>, filePosition: int, showMirror: bool) returns (syncLayerNumber: nat)
    requires forall i, j | 0 <= i < j < |children| :: children[i] != children[j]
    modifies children
    ensures syncLayerNumber == SyncLayer(DataOfAll(children), filePosition)
    ensures LinesOnScreen(children)
            == VisibleLines(DataOfAll(children), filePosition, if showMirror then 2 else 1)
    ensures forall c | c in children :: IsSynced(c, filePosition, if showMirror then 2 else 1)
  {
    syncLayerNumber := 0;
    hide LinesOnScreen, VisibleLines, ShownAt, SyncLayer, IsAfter;
    ghost var perSegment := if showMirror then 2 else 1;
    ghost var all := DataOfAll(children);
    hide DataOfAll;
    NothingSynced(filePosition);
    var n := 0;
    while n < |children|
      invariant 0 <= n <= |children|
      invariant syncLayerNumber == SyncLayer(all[..n], filePosition)
      invariant forall i | 0 <= i < n :: IsSynced(children[i], filePosition, perSegment)
    {
      syncLayerNumber := SyncObject(children[n], filePosition, showMirror, syncLayerNumber);
      SyncLayerSnoc(all, n, filePosition);
      n := n + 1;
    }
    assert all[..n] == all;
    OnScreenIsVisible(children, filePosition, perSegment);
  }

  lemma {:induction false} OnScreenIsVisible(children: seq<LayerObject>, p: int, perSegment: nat)
    requires forall c | c in children :: IsSynced(c, p, perSegment)
    ensures LinesOnScreen(children) == VisibleLines(DataOfAll(children), p, perSegment)
  {
    if children != [] {
      var front := children[..|children| - 1];
      OnScreenIsVisible(front, p, perSegment);
      assert DataOfAll(children)[..|children| - 1] == DataOfAll(front);
      assert IsSynced(children[|children| - 1], p, perSegment);
    }
  }

  // ---------------------------------------------------------------- what a parser records

  /** Recorded positions never decrease, within a layer and from one layer to the next. */
  ghost predicate Ordered(layers: seq<Layer>) {
    && (forall i, a, b | 0 <= i < |layers| && 0 <= a <= b < |layers[i].filePositions| ::
          layers[i].filePositions[a] <= layers[i].filePositions[b])
    && (forall i, j, a, b | 0 <= i < j < |layers| && 0 <= a < |layers[i].filePositions|
                            && 0 <= b < |layers[j].filePositions| ::
          layers[i].filePositions[a] <= layers[j].filePositions[b])
  }

  /** The scene objects of a list of layers: those with something to draw, with height, number from one, and lines. */
  function DrawnOf(layers: seq<Layer>): seq<LayerData> {
    if layers == [] then []
    else
      var last := layers[|layers| - 1];
      DrawnOf(layers[..|layers| - 1]) + if last.strokes == [] then []
      else [LayerData(last.z, |layers|, |last.strokes|, last.filePositions)]
  }

  /** Every segment has its strokes and a position read already. */
  ghost predicate LayerRecorded(cfg: Config, layer: Layer, filePos: nat) {
    && |layer.strokes| == StrokesPerSegment(cfg) * |layer.filePositions|
    && forall position | position in layer.filePositions :: position <= filePos
  }

  ghost predicate WellRecorded(cfg: Config, m: Machine) {
    && Ordered(m.layers)
    && (forall layer | layer in m.layers :: LayerRecorded(cfg, layer, m.filePos))
    && m.drawn == if m.layers == [] then [] else DrawnOf(m.layers[..|m.layers| - 1])
  }

  lemma EmptyLayerKeepsOrder(layers: seq<Layer>, fresh': Layer)
    requires Ordered(layers) && fresh'.filePositions == []
    ensures Ordered(layers + [fresh'])
  {
    var after := layers + [fresh'];
    forall i, j, a, b | 0 <= i < j < |after| && 0 <= a < |after[i].filePositions| && 0 <= b < |after[j].filePositions|
      ensures after[i].filePositions[a] <= after[j].filePositions[b]
    {
      assert after[i] == layers[i] && after[j] == layers[j];
    }
  }

  lemma DrawnGrows(cfg: Config, m: Machine)
    requires m.drawn == if m.layers == [] then [] else DrawnOf(m.layers[..|m.layers| - 1])
    ensures AddObject(m) == m.(drawn := DrawnOf(m.layers))
  {}

  lemma NewLayerKeepsRecord(cfg: Config, m: Machine, z: JsNumber.Number)
    requires WellRecorded(cfg, m)
    ensures WellRecorded(cfg, NewLayer(m, z))
  {
    hide Ordered, LayerRecorded, NewLayer, AddObject, DrawnOf;
    var after := NewLayer(m, z);
    NewLayerFollows(cfg, m, z);
    assert after.layers[..|after.layers| - 1] == m.layers;
    EmptyLayerKeepsOrder(m.layers, Layer(z, [], []));
  }

  lemma NewLayerFollows(cfg: Config, m: Machine, z: JsNumber.Number)
    requires m.drawn == if m.layers == [] then [] else DrawnOf(m.layers[..|m.layers| - 1])
    ensures var after := NewLayer(m, z);
            && after.layers == m.layers + [Layer(z, [], [])] && after.filePos == m.filePos
            && after.drawn == DrawnOf(m.layers) && LayerRecorded(cfg, Layer(z, [], []), m.filePos)
  {
    DrawnGrows(cfg, m);
    hide DrawnOf;
  }

  lemma LongerLayerKeepsOrder(layers: seq<Layer>, longer: Layer, filePos: nat)
    requires Ordered(layers) && layers != []
    requires longer.filePositions == layers[|layers| - 1].filePositions + [filePos]
    requires forall layer | layer in layers :: forall position | position in layer.filePositions :: position <= filePos
    ensures Ordered(layers[|layers| - 1 := longer])
  {
    var last := |layers| - 1;
    var after := layers[last := longer];
    var former := layers[last].filePositions;
    assert layers[last] in layers;
    forall i, a, b | 0 <= i < |after| && 0 <= a <= b < |after[i].filePositions|
      ensures after[i].filePositions[a] <= after[i].filePositions[b]
    {
      if i == last && a < |former| {
        assert former[a] in former && longer.filePositions[a] == former[a];
        assert b < |former| ==> longer.filePositions[b] == former[b];
      } else if i < last {
        assert after[i] == layers[i];
      }
    }
    forall i, j, a, b | 0 <= i < j < |after| && 0 <= a < |after[i].filePositions| && 0 <= b < |after[j].filePositions|
      ensures after[i].filePositions[a] <= after[j].filePositions[b]
    {
      assert after[i] == layers[i] && layers[i] in layers;
      assert layers[i].filePositions[a] in layers[i].filePositions;
      if j == last && b < |former| {
        assert longer.filePositions[b] == former[b];
      }
    }
  }

  lemma PushKeepsRecord(cfg: Config, m: Machine, p1: Position, p2: Position)
    requires WellRecorded(cfg, m) && m.layers != []
    ensures WellRecorded(cfg, AddSegment(cfg, m, p1, p2))
  {
    if IsDrawable(p1) && IsDrawable(p2) {
      hide Ordered, DrawnOf, Strokes, IsDrawable;
      var after := AddSegment(cfg, m, p1, p2);
      var last := |m.layers| - 1;
      var longer := after.layers[last];
      assert after.layers == m.layers[last := longer];
      LongerLayerKeepsOrder(m.layers, longer, m.filePos);
      assert m.layers[last] in m.layers;
      assert LayerRecorded(cfg, longer, m.filePos);
      assert after.layers[..last] == m.layers[..last];
      assert forall layer | layer in after.layers :: layer == longer || layer in m.layers;
      hide LayerRecorded;
    }
  }

  lemma AddSegmentKeepsRecord(cfg: Config, m: Machine, p1: Position, p2: Position)
    requires WellRecorded(cfg, m)
    ensures WellRecorded(cfg, AddSegment(cfg, m, p1, p2))
    ensures AddSegment(cfg, m, p1, p2).layers != []
  {
    var ready := if m.layers == [] then NewLayer(m, p1.z) else m;
    if m.layers == [] {
      NewLayerKeepsRecord(cfg, m, p1.z);
    }
    PushKeepsRecord(cfg, ready, p1, p2);
    assert AddSegment(cfg, m, p1, p2) == AddSegment(cfg, ready, p1, p2);
  }

  lemma {:induction false} AddSegmentsKeepRecord(cfg: Config, m: Machine, points: seq<Position>)
    requires WellRecorded(cfg, m)
    ensures WellRecorded(cfg, AddSegments(cfg, m, points))
    decreases |points|
  {
    hide AddSegment, WellRecorded;
    if |points| >= 2 {
      AddSegmentKeepsRecord(cfg, m, points[0], points[1]);
      AddSegmentsKeepRecord(cfg, AddSegment(cfg, m, points[0], points[1]), points[1..]);
    }
  }

  /** Only layers, scene objects and the file position matter for the record. */
  lemma RecordIgnoresHead(cfg: Config, m: Machine, n: Machine)
    requires WellRecorded(cfg, m)
    requires n.layers == m.layers && n.drawn == m.drawn && n.filePos >= m.filePos
    ensures WellRecorded(cfg, n)
  {}

  lemma ExecuteKeepsRecord(cfg: Config, m: Machine, command: Command)
    requires WellRecorded(cfg, m)
    ensures WellRecorded(cfg, Execute(cfg, m, command))
  {
    hide WellRecorded, AddSegment, AddSegments, NewLayer;
    var after := Execute(cfg, m, command);
    match command
    case Linear(args) =>
      var line := Destination(m.state, args);
      NewLayerKeepsRecord(cfg, m, line.z);
      var layered := EnterLayer(m, line);
      var segmented := if 'e' in args then AddSegment(cfg, layered, m.state.at, line) else layered;
      AddSegmentKeepsRecord(cfg, layered, m.state.at, line);
      RecordIgnoresHead(cfg, segmented, after);
    case ArcMove(clockwise, args) =>
      if 'k' !in args && 'r' !in args {
        var arc := Arc(
          Destination(m.state, args),
          if 'i' in args then args['i'] else JsNumber.ZERO,
          if 'j' in args then args['j'] else JsNumber.ZERO,
          clockwise);
        var points := cfg.interpolateArc(m.state.at, arc);
        AddSegmentsKeepRecord(cfg, m, points);
        RecordIgnoresHead(cfg, AddSegments(cfg, m, points), after);
      }
    case _ =>
      RecordIgnoresHead(cfg, m, after);
  }

  lemma {:induction false} ProcessLinesKeepRecord(cfg: Config, m: Machine, lines: seq<string>)
    requires WellRecorded(cfg, m)
    ensures WellRecorded(cfg, ProcessLines(cfg, m, lines))
    decreases |lines|
  {
    hide WellRecorded, Execute, Decode;
    if lines != [] {
      var line := lines[0];
      var read := m.(filePos := m.filePos + |line| + 1, curColor := CommentColor(line, m.curColor));
      RecordIgnoresHead(cfg, m, read);
      ExecuteKeepsRecord(cfg, read, Decode(cfg, line));
      ProcessLinesKeepRecord(cfg, ProcessLine(cfg, m, line), lines[1..]);
    }
  }

  lemma {:induction false} FeedKeepsRecord(cfg: Config, m: Machine, chunks: seq<string>)
    requires WellRecorded(cfg, m)
    ensures WellRecorded(cfg, FeedAll(cfg, m, chunks))
    decreases |chunks|
  {
    hide WellRecorded, ProcessLine;
    if chunks != [] {
      var lines := Text.Glue([m.previousPiece], Text.Split(chunks[0], '\n'));
      var start := m.(previousPiece := lines[|lines| - 1]);
      RecordIgnoresHead(cfg, m, start);
      ProcessLinesKeepRecord(cfg, start, lines[..|lines| - 1]);
      FeedKeepsRecord(cfg, Feed(cfg, m, chunks[0]), chunks[1..]);
    }
  }

  /** What `loadGcode` leaves behind. */
  function Loaded(cfg: Config, chunks: seq<string>): Machine {
    AddObject(FeedAll(cfg, INITIAL, chunks))
  }

  lemma LoadedRecord(cfg: Config, chunks: seq<string>)
    ensures var m := Loaded(cfg, chunks);
            && Ordered(m.layers)
            && m.drawn == DrawnOf(m.layers)
            && forall layer | layer in m.layers ::
                 |layer.strokes| == StrokesPerSegment(cfg) * |layer.filePositions|
  {
    hide Ordered;
    NothingRecordedYet(cfg);
    FeedKeepsRecord(cfg, INITIAL, chunks);
  }

  lemma NothingRecordedYet(cfg: Config)
    ensures WellRecorded(cfg, INITIAL)
  {}

  // ---------------------------------------------------------------- sync is a plain count

  function Below(positions: seq<nat>, p: int): nat {
    if positions == [] then 0
    else (if positions[0] < p then 1 else 0) + Below(positions[1..], p)
  }

  /** How many segments are recorded at positions before `p`. */
  function CountBelow(layers: seq<Layer>, p: int): nat {
    if layers == [] then 0
    else CountBelow(layers[..|layers| - 1], p) + Below(layers[|layers| - 1].filePositions, p)
  }

  ghost predicate Ascending(positions: seq<nat>) {
    forall a, b | 0 <= a <= b < |positions| :: positions[a] <= positions[b]
  }

  lemma {:induction false} ScanCounts(positions: seq<nat>, p: int)
    requires Ascending(positions)
    ensures ScanBelow(positions, p) == Below(positions, p)
  {
    if positions != [] {
      var rest := positions[1..];
      assert forall a, b | 0 <= a <= b < |rest| :: rest[a] == positions[a + 1] && rest[b] == positions[b + 1];
      ScanCounts(rest, p);
      if positions[0] >= p && rest != [] {
        assert rest[0] == positions[1];
      }
    }
  }

  lemma OneLayerCount(layer: Layer, number: nat, p: int, perSegment: nat)
    requires Ascending(layer.filePositions) && 1 <= perSegment <= 2
    requires |layer.strokes| == perSegment * |layer.filePositions|
    ensures (if layer.strokes == [] || IsAfter(DataOf(layer, number), p) then 0
             else LinesShown(DataOf(layer, number), p, perSegment))
            == perSegment * Below(layer.filePositions, p)
  {
    ScanCounts(layer.filePositions, p);
  }

  lemma LastLayerAdds(layers: seq<Layer>, p: int, perSegment: nat)
    requires layers != []
    ensures var last := layers[|layers| - 1];
            VisibleLines(DrawnOf(layers), p, perSegment)
            == VisibleLines(DrawnOf(layers[..|layers| - 1]), p, perSegment)
               + if last.strokes == [] || IsAfter(DataOf(last, |layers|), p) then 0
                 else LinesShown(DataOf(last, |layers|), p, perSegment)
  {
    var front, drawn := layers[..|layers| - 1], DrawnOf(layers);
    if layers[|layers| - 1].strokes == [] {
      assert drawn == DrawnOf(front);
    } else {
      assert drawn[..|drawn| - 1] == DrawnOf(front);
    }
  }

  lemma {:induction false} VisibleIsCount(layers: seq<Layer>, p: int, perSegment: nat)
    requires 1 <= perSegment <= 2
    requires forall i | 0 <= i < |layers| :: Ascending(layers[i].filePositions)
    requires forall i | 0 <= i < |layers| :: |layers[i].strokes| == perSegment * |layers[i].filePositions|
    ensures VisibleLines(DrawnOf(layers), p, perSegment) == perSegment * CountBelow(layers, p)
  {
    if layers != [] {
      var last := layers[|layers| - 1];
      VisibleIsCount(layers[..|layers| - 1], p, perSegment);
      hide Ascending, LinesShown, IsAfter;
      OneLayerCount(last, |layers|, p, perSegment);
      LastLayerAdds(layers, p, perSegment);
    }
  }

  /** The lines on screen are exactly those of the segments recorded before the position. */
  lemma SyncShowsRecordedSegments(cfg: Config, chunks: seq<string>, p: int)
    ensures var m := Loaded(cfg, chunks);
            VisibleLines(m.drawn, p, StrokesPerSegment(cfg)) == StrokesPerSegment(cfg) * CountBelow(m.layers, p)
  {
    LoadedRecord(cfg, chunks);
    hide Loaded;
    var m := Loaded(cfg, chunks);
    forall i | 0 <= i < |m.layers| ensures Ascending(m.layers[i].filePositions) {}
    VisibleIsCount(m.layers, p, StrokesPerSegment(cfg));
  }

  // ---------------------------------------------------------------- the layer that sync reports

  /** Scene objects are numbered upwards from one, each starts no earlier than the ones before. */
  ghost predicate Numbered(drawn: seq<LayerData>, bound: nat) {
    && (forall d | d in drawn :: d.filePositions != [] && 1 <= d.layerNumber <= bound)
    && (forall i, j | 0 <= i < j < |drawn| ::
          && drawn[i].layerNumber < drawn[j].layerNumber
          && drawn[i].filePositions[0] <= drawn[j].filePositions[0])
  }

  lemma NumberedSnoc(drawn: seq<LayerData>, bound: nat, d: LayerData)
    requires Numbered(drawn, bound) && d.filePositions != [] && d.layerNumber == bound + 1
    requires forall e | e in drawn :: e.filePositions[0] <= d.filePositions[0]
    ensures Numbered(drawn + [d], bound + 1)
  {
    forall i, j | 0 <= i < j < |drawn| + 1
      ensures (drawn + [d])[i].layerNumber < (drawn + [d])[j].layerNumber
      ensures (drawn + [d])[i].filePositions[0] <= (drawn + [d])[j].filePositions[0]
    {
      assert drawn[i] in drawn;
    }
  }

  ghost predicate ComesFrom(d: LayerData, layers: seq<Layer>) {
    exists i | 0 <= i < |layers| :: d.filePositions == layers[i].filePositions
  }

  /** What comes from the earlier layers comes from all of them, and starts before the last one. */
  lemma ComesFromFront(d: LayerData, layers: seq<Layer>)
    requires Ordered(layers) && layers != []
    requires ComesFrom(d, layers[..|layers| - 1]) && d.filePositions != []
    ensures ComesFrom(d, layers)
    ensures var last := layers[|layers| - 1];
            last.filePositions != [] ==> d.filePositions[0] <= last.filePositions[0]
  {
    var front := layers[..|layers| - 1];
    var i :| 0 <= i < |front| && d.filePositions == front[i].filePositions;
    assert d.filePositions == layers[i].filePositions;
  }

  ghost predicate AllComeFrom(drawn: seq<LayerData>, layers: seq<Layer>) {
    forall d | d in drawn :: ComesFrom(d, layers)
  }

  lemma LastLayerNumbered(layers: seq<Layer>, drawn: seq<LayerData>)
    requires Ordered(layers) && layers != []
    requires Numbered(drawn, |layers| - 1) && AllComeFrom(drawn, layers[..|layers| - 1])
    ensures AllComeFrom(drawn, layers)
    ensures var last := layers[|layers| - 1];
            last.filePositions != [] ==> Numbered(drawn + [DataOf(last, |layers|)], |layers|)
  {
    hide ComesFrom, Ordered;
    var last := layers[|layers| - 1];
    assert forall d | d in drawn :: d.filePositions != [];
    forall d | d in drawn
      ensures ComesFrom(d, layers) && (last.filePositions != [] ==> d.filePositions[0] <= last.filePositions[0])
    {
      ComesFromFront(d, layers);
    }
    hide Numbered;
    if last.filePositions != [] {
      NumberedSnoc(drawn, |layers| - 1, DataOf(last, |layers|));
    }
  }

  lemma {:induction false} DrawnIsNumbered(layers: seq<Layer>)
    requires Ordered(layers)
    requires forall layer | layer in layers :: layer.strokes == [] <==> layer.filePositions == []
    ensures Numbered(DrawnOf(layers), |layers|) && AllComeFrom(DrawnOf(layers), layers)
  {
    if layers != [] {
      var front, last := layers[..|layers| - 1], layers[|layers| - 1];
      assert Ordered(front) && last in layers && forall layer | layer in front :: layer in layers;
      DrawnIsNumbered(front);
      LastLayerNumbered(layers, DrawnOf(front));
      NumberedMore(DrawnOf(front), |front|);
      LastComesFrom(layers);
      hide Ordered, Numbered, AllComeFrom;
    }
  }

  lemma LastComesFrom(layers: seq<Layer>)
    requires layers != [] && AllComeFrom(DrawnOf(layers[..|layers| - 1]), layers)
    ensures AllComeFrom(DrawnOf(layers), layers)
  {
    var last := DataOf(layers[|layers| - 1], |layers|);
    assert last.filePositions == layers[|layers| - 1].filePositions;
    assert ComesFrom(last, layers);
    hide ComesFrom;
  }

  lemma NumberedMore(drawn: seq<LayerData>, bound: nat)
    requires Numbered(drawn, bound)
    ensures Numbered(drawn, bound + 1)
  {}

  lemma NumberedFront(drawn: seq<LayerData>, bound: nat)
    requires Numbered(drawn, bound) && drawn != []
    ensures var front, last := drawn[..|drawn| - 1], drawn[|drawn| - 1];
            && Numbered(front, bound) && last.filePositions != [] && last.layerNumber > 0
            && forall d | d in front ::
                 d in drawn && d.layerNumber < last.layerNumber && d.filePositions[0] <= last.filePositions[0]
  {
    var front := drawn[..|drawn| - 1];
    assert drawn[|drawn| - 1] in drawn;
    forall d | d in front
      ensures d in drawn && d.layerNumber < drawn[|drawn| - 1].layerNumber
      ensures d.filePositions[0] <= drawn[|drawn| - 1].filePositions[0]
    {
      var i :| 0 <= i < |front| && front[i] == d;
      assert drawn[i] == d;
    }
  }

  lemma {:induction false} SyncLayerSeparates(drawn: seq<LayerData>, bound: nat, p: int)
    requires Numbered(drawn, bound)
    ensures forall d | d in drawn :: d.filePositions[0] <= p <==> d.layerNumber <= SyncLayer(drawn, p)
    ensures SyncLayer(drawn, p) == 0 || exists d | d in drawn :: d.layerNumber == SyncLayer(drawn, p)
  {
    if drawn != [] {
      var front, last := drawn[..|drawn| - 1], drawn[|drawn| - 1];
      NumberedFront(drawn, bound);
      hide Numbered;
      SyncLayerSeparates(front, bound, p);
      assert drawn == front + [last] && last in drawn;
      if IsAfter(last, p) && SyncLayer(front, p) != 0 {
        var d :| d in front && d.layerNumber == SyncLayer(front, p);
        assert d in drawn && d.layerNumber < last.layerNumber;
      }
    }
  }

  /**
   The reported layer is the last one drawn whose first position is at most `p`, or 0: it separates
   the scene objects that have started by `p` from those that have not.
   */
  lemma SyncReportsLastStartedLayer(cfg: Config, chunks: seq<string>, p: int)
    ensures var drawn := Loaded(cfg, chunks).drawn;
            && (forall d | d in drawn :: d.filePositions != [])
            && (forall d | d in drawn :: d.filePositions[0] <= p <==> d.layerNumber <= SyncLayer(drawn, p))
            && (SyncLayer(drawn, p) == 0 || exists d | d in drawn :: d.layerNumber == SyncLayer(drawn, p))
  {
    LoadedRecord(cfg, chunks);
    hide Loaded, Ordered, SyncLayer;
    var m := Loaded(cfg, chunks);
    DrawnIsNumbered(m.layers);
    SyncLayerSeparates(m.drawn, |m.layers|, p);
  }

  // ---------------------------------------------------------------- sync to a layer

  /** All layers below `layer`, and of that one the lines up to `limit`. */
  function ShownInLayer(d: LayerData, layer: nat, limit: Maybe<nat>): Shown {
    if d.layerNumber < layer then Lines(d.numLines)
    else if d.layerNumber == layer then
      Lines(if limit.Just? && limit.value < d.numLines then limit.value else d.numLines)
    else Hidden
  }

  /** Lower layers are whole, higher ones hidden; the given one shows all lines that the limit allows. */
  lemma LayerIsLimited(d: LayerData, layer: nat, limit: Maybe<nat>)
    ensures var shown := ShownInLayer(d, layer, limit);
            && (shown.Hidden? <==> d.layerNumber > layer)
            && (shown.Lines? ==> shown.count <= d.numLines)
            && (shown.Lines? && shown.count < d.numLines ==>
                  d.layerNumber == layer && limit == Just(shown.count))
            && (d.layerNumber == layer && limit.Just? ==> shown.count <= limit.value)
  {}

  /** `syncGcodeObjToLayer`: an update is asked for exactly when something else is drawn than before. */
  method SyncToLayer(children: seq<LayerObject>, layerNumber: nat, lineNumber: Maybe<nat>, showMirror: bool)
    returns (needUpdate: bool)
    requires forall i, j | 0 <= i < j < |children| :: children[i] != children[j]
    modifies children
    ensures var limit := if showMirror && lineNumber.Just? then Just(lineNumber.value * 2) else lineNumber;
            forall c | c in children :: c.Shows() == ShownInLayer(c.userData, layerNumber, limit)
    ensures forall c | c in children && c.userData.layerNumber == layerNumber ::
              && c.Shows().Lines? && c.Shows().count <= c.userData.numLines
              && (lineNumber.Just? ==> c.Shows().count <= if showMirror then lineNumber.value * 2 else lineNumber.value)
              && (c.Shows().count < c.userData.numLines ==>
                    lineNumber.Just?
                    && c.Shows().count == if showMirror then lineNumber.value * 2 else lineNumber.value)
    ensures forall c | c in children && c.userData.layerNumber < layerNumber ::
              c.Shows() == Lines(c.userData.numLines)
    ensures forall c | c in children && c.userData.layerNumber > layerNumber :: c.Shows() == Hidden
    ensures needUpdate <==> exists c | c in children :: c.Shows() != old(c.Shows())
  {
    needUpdate := false;
    var limit := lineNumber;
    if showMirror && lineNumber.Just? {
      limit := Just(lineNumber.value * 2);
    }
    var n := 0;
    while n < |children|
      invariant 0 <= n <= |children|
      invariant forall i | 0 <= i < n :: children[i].Shows() == ShownInLayer(children[i].userData, layerNumber, limit)
      invariant forall i | n <= i < |children| :: children[i].Shows() == old(children[i].Shows())
      invariant needUpdate <==> exists i | 0 <= i < n :: children[i].Shows() != old(children[i].Shows())
    {
      var child := children[n];
      var count := child.userData.numLines;
      if child.userData.layerNumber <= layerNumber {
        if child.userData.layerNumber == layerNumber && limit.Just? && limit.value < count {
          count := limit.value;
        }
        if !child.visible || child.maxInstancedCount != count {
          needUpdate := true;
        }
        child.visible := true;
        child.maxInstancedCount := count;
      } else {
        if child.visible {
          needUpdate := true;
        }
        child.visible := false;
      }
      n := n + 1;
    }
    assert forall i | 0 <= i < |children| :: children[i] in children;
  }

  /**
   Syncing to the layer that the file position reports shows the same objects, the earlier ones alike
   and of every object at least as many lines.
   */
  lemma LayerSyncShowsSameObjects(cfg: Config, chunks: seq<string>, p: int)
    ensures var drawn := Loaded(cfg, chunks).drawn;
            forall d | d in drawn ::
              var byPosition := ShownAt(d, p, StrokesPerSegment(cfg));
              var byLayer := ShownInLayer(d, SyncLayer(drawn, p), Nothing);
              && (byPosition.Hidden? <==> byLayer.Hidden?)
              && (byPosition.Lines? ==> byPosition.count <= byLayer.count)
  {
    SyncReportsLastStartedLayer(cfg, chunks, p);
    hide Loaded, SyncLayer, ScanBelow;
  }

  lemma {:induction false} BelowGrows(positions: seq<nat>, p: int, q: int)
    requires p <= q
    ensures Below(positions, p) <= Below(positions, q)
  {
    if positions != [] {
      BelowGrows(positions[1..], p, q);
    }
  }

  lemma {:induction false} CountGrows(layers: seq<Layer>, p: int, q: int)
    requires p <= q
    ensures CountBelow(layers, p) <= CountBelow(layers, q)
  {
    if layers != [] {
      CountGrows(layers[..|layers| - 1], p, q);
      BelowGrows(layers[|layers| - 1].filePositions, p, q);
    }
  }

  lemma {:induction false} ScanGrows(positions: seq<nat>, p: int, q: int)
    requires p <= q
    ensures ScanBelow(positions, p) <= ScanBelow(positions, q)
  {
    if positions != [] && positions[0] < p {
      ScanGrows(positions[1..], p, q);
    }
  }

  /** What an object shows does not disappear when the position advances, and gets no shorter. */
  lemma ShownGrows(d: LayerData, p: int, q: int, perSegment: nat)
    requires p <= q && ShownAt(d, p, perSegment).Lines?
    ensures ShownAt(d, q, perSegment).Lines? && ShownAt(d, p, perSegment).count <= ShownAt(d, q, perSegment).count
  {
    hide ScanBelow;
    var before, after := ScanBelow(d.filePositions, p), ScanBelow(d.filePositions, q);
    ScanGrows(d.filePositions, p, q);
    assert before * perSegment <= after * perSegment;
  }

  lemma LayerNeverGoesBack(cfg: Config, chunks: seq<string>, p: int, q: int)
    requires p <= q
    ensures SyncLayer(Loaded(cfg, chunks).drawn, p) <= SyncLayer(Loaded(cfg, chunks).drawn, q)
  {
    hide Loaded;
    var m := Loaded(cfg, chunks);
    SyncReportsLastStartedLayer(cfg, chunks, p);
    SyncReportsLastStartedLayer(cfg, chunks, q);
    if SyncLayer(m.drawn, p) != 0 {
      var d :| d in m.drawn && d.layerNumber == SyncLayer(m.drawn, p);
      assert d.filePositions[0] <= q;
    }
  }

  /** As the file position advances no object loses a line, no line disappears and the layer never goes back. */
  lemma SyncIsMonotone(cfg: Config, chunks: seq<string>, p: int, q: int)
    requires p <= q
    ensures var drawn := Loaded(cfg, chunks).drawn;
            var perSegment := StrokesPerSegment(cfg);
            && (forall d | d in drawn && ShownAt(d, p, perSegment).Lines? ::
                  && ShownAt(d, q, perSegment).Lines?
                  && ShownAt(d, p, perSegment).count <= ShownAt(d, q, perSegment).count)
            && VisibleLines(drawn, p, perSegment) <= VisibleLines(drawn, q, perSegment)
            && SyncLayer(drawn, p) <= SyncLayer(drawn, q)
  {
    hide Loaded, ShownAt, ScanBelow, CountBelow;
    var m := Loaded(cfg, chunks);
    SyncShowsRecordedSegments(cfg, chunks, p);
    SyncShowsRecordedSegments(cfg, chunks, q);
    CountGrows(m.layers, p, q);
    LayerNeverGoesBack(cfg, chunks, p, q);
    forall d | d in m.drawn && ShownAt(d, p, StrokesPerSegment(cfg)).Lines?
      ensures ShownAt(d, q, StrokesPerSegment(cfg)).Lines?
      ensures ShownAt(d, p, StrokesPerSegment(cfg)).count <= ShownAt(d, q, StrokesPerSegment(cfg)).count
    {
      ShownGrows(d, p, q, StrokesPerSegment(cfg));
    }
  }
}
