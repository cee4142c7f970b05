/**
 Where the viewer begins its layers, and which part of the path goes into which one: by the words of the
 lines, beside the account of the path.
 */
module ViewerLayers {
  import opened JsNumber
  import opened Text
  import opened GcodeViewer
  import opened ToolPath
  import ChunkedParsing
  import LayerAgreement
  import ViewerSync

  // ---------------------------------------------------------------- the account

  /** A layer: the height it was begun at and the number of legs in it. */
  datatype Opened = Opened(height: Number, legs: nat)

  /** The filament moves on: by the given amount itself under G91, else by more than there was before. */
  predicate Extrudes(head: Head, e: Number) {
    e.Fin? && if head.relative then e.value > 0.0 else head.at.e.Fin? && e.value > head.at.e.value
  }

  /** Both are the same number; no number is the same as NaN. */
  predicate IsSameHeight(a: Number, b: Number) {
    a.Fin? && b.Fin? && a.value == b.value
  }

  /** A straight move that extrudes, at another height than that of the last layer. */
  predicate Opens(cfg: Config, head: Head, line: string, layers: seq<Opened>) {
    var target := LedBy(cfg, head.relative, head.at, Tokens(line)[1..]);
    && UpperAll(Tokens(line)[0]) in {"G0", "G1"} && Extrudes(head, target.e)
    && (layers == [] || !IsSameHeight(target.z, layers[|layers| - 1].height))
  }

  /** What is drawn goes into the last layer; if there is none it begins one, at the height it starts from. */
  function DrawnInto(layers: seq<Opened>, height: Number, legs: nat): (after: seq<Opened>)
    ensures after != []
  {
    var begun := if layers == [] then [Opened(height, 0)] else layers;
    begun[|begun| - 1 := begun[|begun| - 1].(legs := begun[|begun| - 1].legs + legs)]
  }

  function LayersStep(cfg: Config, head: Head, layers: seq<Opened>, line: string): seq<Opened> {
    var track := Track(cfg, head, line);
    var entered :=
      if Opens(cfg, head, line, layers)
      then layers + [Opened(LedBy(cfg, head.relative, head.at, Tokens(line)[1..]).z, 0)] else layers;
    if IsDrawn(cfg, line) && track != [] then DrawnInto(entered, track[0].z, |Legs(track, 0, White)|) else entered
  }

  function LayersOf(cfg: Config, lines: seq<string>): seq<Opened> {
    if lines == [] then []
    else
      var front := lines[..|lines| - 1];
      LayersStep(cfg, PathOf(cfg, front).head, LayersOf(cfg, front), lines[|lines| - 1])
  }

  // ---------------------------------------------------------------- what the machine has

  function Profile(layers: seq<Layer>): seq<Opened> {
    seq(|layers|, i requires 0 <= i < |layers| => Opened(layers[i].z, |layers[i].filePositions|))
  }

  lemma EnteringOpens(m: Machine, line: Position)
    ensures var before := Profile(m.layers);
            Profile(EnterLayer(m, line).layers)
            == if Extrudes(m.state, line.e) && (before == [] || !IsSameHeight(line.z, before[|before| - 1].height))
               then before + [Opened(line.z, 0)] else before
  {
    var before := Profile(m.layers);
    assert m.layers != [] ==> before[|before| - 1].height == m.layers[|m.layers| - 1].z;
    assert NewLayer(m, line.z).layers == m.layers + [Layer(line.z, [], [])];
    hide NewLayer;
  }

  lemma SegmentIsDrawnInto(cfg: Config, m: Machine, p1: Position, p2: Position)
    ensures Profile(AddSegment(cfg, m, p1, p2).layers)
            == DrawnInto(Profile(m.layers), p1.z, if IsDrawable(p1) && IsDrawable(p2) then 1 else 0)
  {
    hide Strokes, IsDrawable;
    var ready := if m.layers == [] then NewLayer(m, p1.z) else m;
    assert m.layers == [] ==> ready.layers == [Layer(p1.z, [], [])];
  }

  lemma DrawnIntoTwice(layers: seq<Opened>, height: Number, other: Number, a: nat, b: nat)
    ensures DrawnInto(DrawnInto(layers, height, a), other, b) == DrawnInto(layers, height, a + b)
  {}

  lemma LegCount(points: seq<Position>, end: nat, color: Color)
    requires |points| >= 2
    ensures |Legs(points, end, color)|
            == (if IsDrawable(points[0]) && IsDrawable(points[1]) then 1 else 0) + |Legs(points[1..], end, color)|
  {
    hide IsDrawable;
    OneLeg(points[0], points[1], end, color);
    FirstLeg(points, end, color);
    hide Legs;
  }

  lemma {:induction false} SegmentsAreDrawnInto(cfg: Config, m: Machine, points: seq<Position>)
    requires |points| >= 2
    ensures Profile(AddSegments(cfg, m, points).layers)
            == DrawnInto(Profile(m.layers), points[0].z, |Legs(points, 0, White)|)
    decreases |points|
  {
    hide AddSegment, Profile, DrawnInto, IsDrawable;
    var next := AddSegment(cfg, m, points[0], points[1]);
    SegmentIsDrawnInto(cfg, m, points[0], points[1]);
    LegCount(points, 0, White);
    if |points| > 2 {
      SegmentsAreDrawnInto(cfg, next, points[1..]);
      DrawnIntoTwice(Profile(m.layers), points[0].z, points[1].z,
                     if IsDrawable(points[0]) && IsDrawable(points[1]) then 1 else 0, |Legs(points[1..], 0, White)|);
    }
  }

  // ---------------------------------------------------------------- one line

  lemma MoveOpens(cfg: Config, m: Machine, line: string)
    requires UpperAll(Tokens(line)[0]) in {"G0", "G1"}
    ensures Profile(Execute(cfg, m, Decode(cfg, line)).layers) == LayersStep(cfg, m.state, Profile(m.layers), line)
  {
    var words := Tokens(line)[1..];
    assert Decode(cfg, line) == Linear(ArgsOf(cfg, words));
    DestinationIsLed(cfg, m.state, words);
    ArgumentsAreGiven(cfg, words, 'e');
    var target := LedBy(cfg, m.state.relative, m.state.at, words);
    assert Track(cfg, m.state, line) == [m.state.at, target];
    EnteringOpens(m, target);
    SegmentIsDrawnInto(cfg, EnterLayer(m, target), m.state.at, target);
    OneLeg(m.state.at, target, 0, White);
    hide ArgsOf, Given, LedBy, Tokens, UpperAll, Decode, Profile, DrawnInto, AddSegment, EnterLayer, Legs, Extrudes,
      IsSameHeight, IsDrawable, Destination, Track;
  }

  lemma ArcOpens(cfg: Config, m: Machine, line: string)
    requires UpperAll(Tokens(line)[0]) in {"G2", "G3"}
    ensures Profile(Execute(cfg, m, Decode(cfg, line)).layers) == LayersStep(cfg, m.state, Profile(m.layers), line)
  {
    var words, clockwise := Tokens(line)[1..], UpperAll(Tokens(line)[0]) == "G2";
    assert Decode(cfg, line) == ArcMove(clockwise, ArgsOf(cfg, words));
    DestinationIsLed(cfg, m.state, words);
    ArgumentsAreGiven(cfg, words, 'i');
    ArgumentsAreGiven(cfg, words, 'j');
    ArgumentsAreGiven(cfg, words, 'k');
    ArgumentsAreGiven(cfg, words, 'r');
    var track := ArcTrack(cfg, m.state, LedBy(cfg, m.state.relative, m.state.at, words), words, clockwise);
    assert Track(cfg, m.state, line) == track;
    hide ArgsOf, Given, LedBy, Tokens, UpperAll, Decode, Profile, DrawnInto, AddSegments, Legs, Destination, Track;
    if track != [] {
      SegmentsAreDrawnInto(cfg, m, track);
    }
  }

  lemma OtherOpensNothing(cfg: Config, m: Machine, line: string)
    requires UpperAll(Tokens(line)[0]) !in {"G0", "G1", "G2", "G3"}
    ensures Execute(cfg, m, Decode(cfg, line)).layers == m.layers
    ensures LayersStep(cfg, m.state, Profile(m.layers), line) == Profile(m.layers)
  {
    TokensDecode(cfg, line);
    hide ArgsOf, Given, LedBy, Tokens, UpperAll, Decode, Profile, DrawnInto, Legs;
  }

  lemma LineOpens(cfg: Config, m: Machine, line: string)
    ensures Profile(ProcessLine(cfg, m, line).layers) == LayersStep(cfg, m.state, Profile(m.layers), line)
  {
    hide Execute, Decode, Tokens, UpperAll, LayersStep, Profile, CommentColor;
    var read := m.(filePos := m.filePos + |line| + 1, curColor := CommentColor(line, m.curColor));
    var word := UpperAll(Tokens(line)[0]);
    if word in {"G0", "G1"} {
      MoveOpens(cfg, read, line);
    } else if word in {"G2", "G3"} {
      ArcOpens(cfg, read, line);
    } else {
      OtherOpensNothing(cfg, read, line);
    }
  }

  // ---------------------------------------------------------------- whole texts

  /** The layers have the heights of the account and as many lines each. */
  lemma {:induction false} LayersAreOpened(cfg: Config, lines: seq<string>)
    ensures Profile(LayerAgreement.Viewed(cfg, lines).layers) == LayersOf(cfg, lines)
  {
    if lines == [] {
      assert LayerAgreement.Viewed(cfg, lines) == INITIAL;
    } else {
      var front := lines[..|lines| - 1];
      LayersAreOpened(cfg, front);
      PathIsDrawn(cfg, front);
      LayerAgreement.ViewedSnoc(cfg, lines);
      LineOpens(cfg, LayerAgreement.Viewed(cfg, front), lines[|lines| - 1]);
      hide ProcessLine, LayersStep, Profile, LayerAgreement.Viewed;
    }
  }

  /** After any load: layer by layer the height it was begun at and the number of its lines. */
  lemma LoadedLayers(cfg: Config, chunks: seq<string>)
    ensures var m, lines := ViewerSync.Loaded(cfg, chunks), Split(ChunkedParsing.Concat(chunks), '\n');
            Profile(m.layers) == LayersOf(cfg, lines[..|lines| - 1])
  {
    hide Profile, LayersOf, Feed, LayerAgreement.Viewed;
    var text := ChunkedParsing.Concat(chunks);
    var lines := Split(text, '\n');
    ChunkedParsing.ChunkIndependence(cfg, INITIAL, chunks);
    LayerAgreement.FeedReadsCompleteLines(cfg, text);
    LayersAreOpened(cfg, lines[..|lines| - 1]);
  }
}
