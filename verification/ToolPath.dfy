/**
 What the viewer draws is the path of the tool. The account here follows the words of the lines and knows
 neither layers nor strokes: it keeps the head, the colour and the end of the line, and notes a leg for
 every move that carries E and for every piece of an arc.
 */
module ToolPath {
  import opened JsNumber
  import opened Text
  import opened Wrappers
  import opened GcodeViewer
  import ChunkedParsing
  import LayerAgreement
  import ViewerSync

  // ---------------------------------------------------------------- the account

  /** A leg of the path, with the end of the line it comes from and the colour in force there. */
  datatype Leg = Leg(from: Point, to: Point, end: nat, color: Color)

  datatype Account = Account(head: Head, color: Color, end: nat, legs: seq<Leg>)

  function Tokens(line: string): (tokens: seq<string>)
    ensures tokens != []
  {
    Split(StripComments(line), ' ')
  }

  /** The number behind the last word that begins with this letter. */
  function Given(cfg: Config, words: seq<string>, letter: char): Maybe<Number> {
    if words == [] then Nothing
    else
      var word := words[|words| - 1];
      if word != "" && Lower(word[0]) == letter then Just(cfg.parseFloat(word[1..]))
      else Given(cfg, words[..|words| - 1], letter)
  }

  function Led(adds: bool, from: Number, given: Maybe<Number>): Number {
    match given
    case Nothing => from
    case Just(v) => if adds then Plus(from, v) else v
  }

  function LedBy(cfg: Config, adds: bool, from: Position, words: seq<string>): Position {
    Position(Led(adds, from.x, Given(cfg, words, 'x')), Led(adds, from.y, Given(cfg, words, 'y')),
             Led(adds, from.z, Given(cfg, words, 'z')), Led(adds, from.e, Given(cfg, words, 'e')),
             Led(adds, from.f, Given(cfg, words, 'f')))
  }

  function OrZero(given: Maybe<Number>): Number {
    if given.Just? then given.value else Fin(0.0)
  }

  /** The positions the head passes on a line, the present one first; none when it does not move. */
  function Track(cfg: Config, head: Head, line: string): seq<Position> {
    var words := Tokens(line)[1..];
    var target := LedBy(cfg, head.relative, head.at, words);
    match UpperAll(Tokens(line)[0])
    case "G0" => [head.at, target]
    case "G1" => [head.at, target]
    case "G2" => ArcTrack(cfg, head, target, words, true)
    case "G3" => ArcTrack(cfg, head, target, words, false)
    case _ => []
  }

  /** Arcs given by K or R are not followed. */
  function ArcTrack(cfg: Config, head: Head, target: Position, words: seq<string>, clockwise: bool): seq<Position> {
    if Given(cfg, words, 'k').Just? || Given(cfg, words, 'r').Just? then []
    else
      cfg.interpolateArc(
        head.at, Arc(target, OrZero(Given(cfg, words, 'i')), OrZero(Given(cfg, words, 'j')), clockwise))
  }

  /** Arcs are drawn, straight moves when they carry an E word. */
  predicate IsDrawn(cfg: Config, line: string) {
    UpperAll(Tokens(line)[0]) in {"G2", "G3"} || Given(cfg, Tokens(line)[1..], 'e').Just?
  }

  function HeadAfter(cfg: Config, head: Head, line: string): Head {
    var track := Track(cfg, head, line);
    if track != [] then Head(track[|track| - 1], false)
    else
      match UpperAll(Tokens(line)[0])
      case "G90" => Head(head.at, false)
      case "G91" => Head(head.at, true)
      case "G92" => Head(LedBy(cfg, false, head.at, Tokens(line)[1..]).(f := head.at.f), head.relative)
      case _ => head
  }

  /** The legs between neighbouring positions, without those that have a coordinate that is no number. */
  function Legs(track: seq<Position>, end: nat, color: Color): seq<Leg> {
    if |track| < 2 then []
    else
      var a, b, rest := track[0], track[1], Legs(track[1..], end, color);
      if NaN in [a.x, a.y, a.z, b.x, b.y, b.z] then rest
      else [Leg(Point(a.x, a.y, a.z), Point(b.x, b.y, b.z), end, color)] + rest
  }

  /** The words of a comment that set the colour, the more important ones first. */
  const KEYWORDS: seq<(string, Color)> :=
    [("inner", Green), ("outer", Red), ("perimeter", Red), ("fill", Orange), ("skin", Yellow),
     ("support", SkyBlue), ("skirt", SkyBlue)]

  /** The colour of the first keyword, from number `n` on, that the text contains. */
  function KeywordColor(lower: string, n: nat): Maybe<Color>
    requires n <= |KEYWORDS|
    decreases |KEYWORDS| - n
  {
    if n == |KEYWORDS| then Nothing
    else if Contains(lower, KEYWORDS[n].0) then Just(KEYWORDS[n].1)
    else KeywordColor(lower, n + 1)
  }

  /** Only lines with a semicolon change the colour. */
  function ColorAfter(line: string, before: Color): Color {
    if ';' !in line then before
    else
      var color := KeywordColor(LowerAll(line), 0);
      if color.Just? then color.value else before
  }

  function PathOf(cfg: Config, lines: seq<string>): Account {
    if lines == [] then
      Account(Head(Position(Fin(0.0), Fin(0.0), Fin(0.0), Fin(0.0), Fin(0.0)), false), White, 0, [])
    else
      var before, line := PathOf(cfg, lines[..|lines| - 1]), lines[|lines| - 1];
      var end, color := before.end + |line| + 1, ColorAfter(line, before.color);
      var legs := if IsDrawn(cfg, line) then Legs(Track(cfg, before.head, line), end, color) else [];
      Account(HeadAfter(cfg, before.head, line), color, end, before.legs + legs)
  }

  // ---------------------------------------------------------------- what is in the layers

  /** One position for every unmirrored line; with the mirror on each is followed by its image. */
  ghost predicate IsWellDrawn(cfg: Config, layer: Layer, index: nat) {
    && |layer.strokes| == Place(cfg, |layer.filePositions|)
    && forall k | 0 <= k < |layer.filePositions| ::
         var stroke := layer.strokes[Place(cfg, k)];
         && !stroke.mirrored && (stroke.evenLayer <==> index % 2 == 1)
         && (cfg.showMirror ==> IsImage(stroke, layer.strokes[Place(cfg, k) + 1]))
  }

  /** Where line `k` of a layer stands when mirrored ones come between. */
  function Place(cfg: Config, k: nat): nat {
    if cfg.showMirror then 2 * k else k
  }

  /** The same line with both heights negated. */
  predicate IsImage(stroke: Stroke, image: Stroke) {
    && stroke.from.z.Fin? && stroke.to.z.Fin?
    && image.from == stroke.from.(z := Fin(-stroke.from.z.value))
    && image.to == stroke.to.(z := Fin(-stroke.to.z.value))
    && image.color == stroke.color && image.evenLayer == stroke.evenLayer && image.mirrored
  }

  ghost predicate AreWellDrawn(cfg: Config, layers: seq<Layer>) {
    forall i | 0 <= i < |layers| :: IsWellDrawn(cfg, layers[i], i)
  }

  /** The unmirrored lines of a layer. */
  ghost function LayerLegs(cfg: Config, layer: Layer): (legs: seq<Leg>)
    requires |layer.strokes| == Place(cfg, |layer.filePositions|)
  {
    seq(|layer.filePositions|, k requires 0 <= k < |layer.filePositions| =>
      var stroke := layer.strokes[Place(cfg, k)];
      Leg(stroke.from, stroke.to, layer.filePositions[k], stroke.color))
  }

  /** The unmirrored lines of all layers, in order. */
  ghost function DrawnLegs(cfg: Config, layers: seq<Layer>): seq<Leg>
    requires AreWellDrawn(cfg, layers)
  {
    if layers == [] then []
    else
      var front, last := layers[..|layers| - 1], layers[|layers| - 1];
      assert AreWellDrawn(cfg, front) && IsWellDrawn(cfg, last, |front|);
      DrawnLegs(cfg, front) + LayerLegs(cfg, last)
  }

  /** What the machine shows of an account: head, colour, file position and lines. */
  ghost predicate Shows(cfg: Config, m: Machine, account: Account) {
    && m.state == account.head && m.curColor == account.color && m.filePos == account.end
    && AreWellDrawn(cfg, m.layers) && DrawnLegs(cfg, m.layers) == account.legs
  }

  // ---------------------------------------------------------------- drawing

  /** Drawing adds these legs and leaves the rest alone. */
  ghost predicate Adds(cfg: Config, m: Machine, after: Machine, legs: seq<Leg>) {
    && AreWellDrawn(cfg, m.layers) && AreWellDrawn(cfg, after.layers)
    && after.state == m.state && after.curColor == m.curColor && after.filePos == m.filePos
    && DrawnLegs(cfg, after.layers) == DrawnLegs(cfg, m.layers) + legs
  }

  lemma EmptyLayerAddsNothing(cfg: Config, m: Machine, z: Number)
    requires AreWellDrawn(cfg, m.layers)
    ensures Adds(cfg, m, NewLayer(m, z), [])
  {
    var after := NewLayer(m, z).layers;
    assert after == m.layers + [Layer(z, [], [])];
    assert after[..|after| - 1] == m.layers;
    assert IsWellDrawn(cfg, Layer(z, [], []), |m.layers|);
    assert LayerLegs(cfg, Layer(z, [], [])) == [];
  }

  lemma EnteringAddsNothing(cfg: Config, m: Machine, line: Position)
    requires AreWellDrawn(cfg, m.layers)
    ensures Adds(cfg, m, EnterLayer(m, line), [])
  {
    hide NewLayer, AreWellDrawn;
    EmptyLayerAddsNothing(cfg, m, line.z);
  }

  lemma LastLayerGrows(cfg: Config, layers: seq<Layer>, longer: Layer, leg: Leg)
    requires AreWellDrawn(cfg, layers) && layers != [] && IsWellDrawn(cfg, longer, |layers| - 1)
    requires LayerLegs(cfg, longer) == LayerLegs(cfg, layers[|layers| - 1]) + [leg]
    ensures var after := layers[|layers| - 1 := longer];
            AreWellDrawn(cfg, after) && DrawnLegs(cfg, after) == DrawnLegs(cfg, layers) + [leg]
  {
    hide IsWellDrawn, LayerLegs;
    var after := layers[|layers| - 1 := longer];
    assert after[..|after| - 1] == layers[..|layers| - 1];
  }

  lemma StrokesLengthen(cfg: Config, layer: Layer, index: nat, strokes: seq<Stroke>, position: nat)
    requires IsWellDrawn(cfg, layer, index)
    requires |strokes| == if cfg.showMirror then 2 else 1
    requires !strokes[0].mirrored && (strokes[0].evenLayer <==> index % 2 == 1)
    requires cfg.showMirror ==> IsImage(strokes[0], strokes[1])
    ensures var longer := Layer(layer.z, layer.strokes + strokes, layer.filePositions + [position]);
            && IsWellDrawn(cfg, longer, index)
            && LayerLegs(cfg, longer)
               == LayerLegs(cfg, layer) + [Leg(strokes[0].from, strokes[0].to, position, strokes[0].color)]
  {
    hide IsImage;
    var n := |layer.filePositions|;
    var longer := Layer(layer.z, layer.strokes + strokes, layer.filePositions + [position]);
    if cfg.showMirror {
      assert longer.strokes[2 * n] == strokes[0] && longer.strokes[2 * n + 1] == strokes[1];
    } else {
      assert longer.strokes[n] == strokes[0];
    }
  }

  /** A segment adds its leg, or nothing when it has a coordinate that is no number. */
  lemma SegmentAdds(cfg: Config, m: Machine, p1: Position, p2: Position)
    requires AreWellDrawn(cfg, m.layers)
    ensures Adds(cfg, m, AddSegment(cfg, m, p1, p2), Legs([p1, p2], m.filePos, m.curColor))
  {
    var ready := if m.layers == [] then NewLayer(m, p1.z) else m;
    EmptyLayerAddsNothing(cfg, m, p1.z);
    OneLeg(p1, p2, m.filePos, m.curColor);
    if IsDrawable(p1) && IsDrawable(p2) {
      DrawableAdds(cfg, ready, p1, p2);
    }
    hide AreWellDrawn, NewLayer, LayerLegs, DrawnLegs, Legs, IsDrawable, Strokes;
  }

  lemma OneLeg(p1: Position, p2: Position, end: nat, color: Color)
    ensures Legs([p1, p2], end, color)
            == if IsDrawable(p1) && IsDrawable(p2)
               then [Leg(Point(p1.x, p1.y, p1.z), Point(p2.x, p2.y, p2.z), end, color)] else []
  {
    assert Legs([p1, p2][1..], end, color) == [];
  }

  lemma DrawableAdds(cfg: Config, m: Machine, p1: Position, p2: Position)
    requires AreWellDrawn(cfg, m.layers) && m.layers != [] && IsDrawable(p1) && IsDrawable(p2)
    ensures Adds(cfg, m, AddSegment(cfg, m, p1, p2),
                 [Leg(Point(p1.x, p1.y, p1.z), Point(p2.x, p2.y, p2.z), m.filePos, m.curColor)])
  {
    var last := |m.layers| - 1;
    var layer, strokes := m.layers[last], Strokes(cfg, m, p1, p2);
    assert IsWellDrawn(cfg, layer, last);
    StrokesLengthen(cfg, layer, last, strokes, m.filePos);
    hide AreWellDrawn, IsWellDrawn, LayerLegs;
    LastLayerGrows(cfg, m.layers, AddSegment(cfg, m, p1, p2).layers[last],
                   Leg(strokes[0].from, strokes[0].to, m.filePos, strokes[0].color));
  }

  lemma {:induction false} SegmentsAdd(cfg: Config, m: Machine, points: seq<Position>)
    requires AreWellDrawn(cfg, m.layers)
    ensures Adds(cfg, m, AddSegments(cfg, m, points), Legs(points, m.filePos, m.curColor))
    decreases |points|
  {
    if |points| >= 2 {
      hide AreWellDrawn, AddSegment, DrawnLegs;
      var next := AddSegment(cfg, m, points[0], points[1]);
      SegmentAdds(cfg, m, points[0], points[1]);
      SegmentsAdd(cfg, next, points[1..]);
      FirstLeg(points, m.filePos, m.curColor);
    }
  }

  lemma FirstLeg(track: seq<Position>, end: nat, color: Color)
    requires |track| >= 2
    ensures Legs(track, end, color) == Legs([track[0], track[1]], end, color) + Legs(track[1..], end, color)
  {
    assert Legs([track[0], track[1]][1..], end, color) == [];
  }

  // ---------------------------------------------------------------- reading

  /** The argument object holds for each letter what its last word gives. */
  lemma {:induction false} ArgumentsAreGiven(cfg: Config, words: seq<string>, letter: char)
    ensures var args, given := ArgsOf(cfg, words), Given(cfg, words, letter);
            (letter in args <==> given.Just?) && (given.Just? ==> args[letter] == given.value)
  {
    if words != [] {
      ArgumentsAreGiven(cfg, words[..|words| - 1], letter);
    }
  }

  lemma DestinationIsLed(cfg: Config, head: Head, words: seq<string>)
    ensures Destination(head, ArgsOf(cfg, words)) == LedBy(cfg, head.relative, head.at, words)
  {
    ArgumentsAreGiven(cfg, words, 'x');
    ArgumentsAreGiven(cfg, words, 'y');
    ArgumentsAreGiven(cfg, words, 'z');
    ArgumentsAreGiven(cfg, words, 'e');
    ArgumentsAreGiven(cfg, words, 'f');
    hide ArgsOf, Given;
  }

  // ---------------------------------------------------------------- one line

  lemma MoveShows(cfg: Config, m: Machine, before: Account, words: seq<string>)
    requires Shows(cfg, m, before)
    ensures var target := LedBy(cfg, before.head.relative, before.head.at, words);
            var legs := if Given(cfg, words, 'e').Just?
                        then Legs([before.head.at, target], before.end, before.color) else [];
            Shows(cfg, Execute(cfg, m, Linear(ArgsOf(cfg, words))),
                  before.(head := Head(target, false), legs := before.legs + legs))
  {
    var args := ArgsOf(cfg, words);
    DestinationIsLed(cfg, m.state, words);
    ArgumentsAreGiven(cfg, words, 'e');
    hide ArgsOf, Given, LedBy, Destination, EnterLayer, AddSegment, AreWellDrawn, DrawnLegs, Legs;
    var target := Destination(m.state, args);
    var entered := EnterLayer(m, target);
    EnteringAddsNothing(cfg, m, target);
    SegmentAdds(cfg, entered, m.state.at, target);
  }

  lemma ArcShows(cfg: Config, m: Machine, before: Account, words: seq<string>, clockwise: bool)
    requires Shows(cfg, m, before)
    ensures var target := LedBy(cfg, before.head.relative, before.head.at, words);
            var track := ArcTrack(cfg, before.head, target, words, clockwise);
            var after := if track == [] then before.head else Head(track[|track| - 1], false);
            Shows(cfg, Execute(cfg, m, ArcMove(clockwise, ArgsOf(cfg, words))),
                  before.(head := after, legs := before.legs + Legs(track, before.end, before.color)))
  {
    DestinationIsLed(cfg, m.state, words);
    ArgumentsAreGiven(cfg, words, 'i');
    ArgumentsAreGiven(cfg, words, 'j');
    ArgumentsAreGiven(cfg, words, 'k');
    ArgumentsAreGiven(cfg, words, 'r');
    hide ArgsOf, Given, LedBy, Destination, AddSegments, AreWellDrawn, DrawnLegs;
    var target := LedBy(cfg, before.head.relative, before.head.at, words);
    var track := ArcTrack(cfg, before.head, target, words, clockwise);
    if track != [] {
      SegmentsAdd(cfg, m, track);
    }
  }

  lemma SettingShows(cfg: Config, m: Machine, before: Account, words: seq<string>)
    requires Shows(cfg, m, before)
    ensures var at := LedBy(cfg, false, before.head.at, words).(f := before.head.at.f);
            Shows(cfg, Execute(cfg, m, SetPosition(ArgsOf(cfg, words))), before.(head := before.head.(at := at)))
  {
    ArgumentsAreGiven(cfg, words, 'x');
    ArgumentsAreGiven(cfg, words, 'y');
    ArgumentsAreGiven(cfg, words, 'z');
    ArgumentsAreGiven(cfg, words, 'e');
    hide ArgsOf, Given, AreWellDrawn, DrawnLegs;
  }

  /** The legs of a line and the head after it. */
  function Follow(cfg: Config, before: Account, line: string): Account {
    var legs := if IsDrawn(cfg, line) then Legs(Track(cfg, before.head, line), before.end, before.color) else [];
    before.(head := HeadAfter(cfg, before.head, line), legs := before.legs + legs)
  }

  lemma MoveLineShows(cfg: Config, m: Machine, before: Account, line: string)
    requires Shows(cfg, m, before) && UpperAll(Tokens(line)[0]) in {"G0", "G1"}
    ensures Shows(cfg, Execute(cfg, m, Decode(cfg, line)), Follow(cfg, before, line))
  {
    var words := Tokens(line)[1..];
    assert Decode(cfg, line) == Linear(ArgsOf(cfg, words));
    MoveShows(cfg, m, before, words);
    hide ArgsOf, Given, LedBy, Execute, Tokens, UpperAll, Shows, Legs, Decode;
  }

  lemma ArcLineTracks(cfg: Config, head: Head, line: string)
    requires UpperAll(Tokens(line)[0]) in {"G2", "G3"}
    ensures var words, clockwise := Tokens(line)[1..], UpperAll(Tokens(line)[0]) == "G2";
            && Decode(cfg, line) == ArcMove(clockwise, ArgsOf(cfg, words))
            && Track(cfg, head, line)
               == ArcTrack(cfg, head, LedBy(cfg, head.relative, head.at, words), words, clockwise)
            && IsDrawn(cfg, line)
  {
    hide ArgsOf, Given, LedBy, ArcTrack, StripComments, UpperAll;
  }

  lemma HeadFollowsTrack(cfg: Config, head: Head, line: string)
    requires UpperAll(Tokens(line)[0]) in {"G2", "G3"}
    ensures var track := Track(cfg, head, line);
            HeadAfter(cfg, head, line) == if track == [] then head else Head(track[|track| - 1], false)
  {
    hide Given, LedBy, Tokens, UpperAll, Track;
  }

  lemma ArcLineShows(cfg: Config, m: Machine, before: Account, line: string)
    requires Shows(cfg, m, before) && UpperAll(Tokens(line)[0]) in {"G2", "G3"}
    ensures Shows(cfg, Execute(cfg, m, Decode(cfg, line)), Follow(cfg, before, line))
  {
    hide ArgsOf, Given, LedBy, Execute, ArcTrack, Tokens, UpperAll, Shows, Decode, Track, HeadAfter, IsDrawn, Legs;
    ArcLineTracks(cfg, before.head, line);
    HeadFollowsTrack(cfg, before.head, line);
    ArcShows(cfg, m, before, Tokens(line)[1..], UpperAll(Tokens(line)[0]) == "G2");
  }

  lemma OtherLineShows(cfg: Config, m: Machine, before: Account, line: string)
    requires Shows(cfg, m, before) && UpperAll(Tokens(line)[0]) !in {"G0", "G1", "G2", "G3"}
    ensures Shows(cfg, Execute(cfg, m, Decode(cfg, line)), before.(head := HeadAfter(cfg, before.head, line)))
    ensures Track(cfg, before.head, line) == []
  {
    var words := Tokens(line)[1..];
    SettingShows(cfg, m, before, words);
    hide ArgsOf, Given, LedBy, Tokens, UpperAll, DrawnLegs, AreWellDrawn;
    assert Decode(cfg, line) == CommandOf(UpperAll(Tokens(line)[0]), ArgsOf(cfg, words)) by {
      TokensDecode(cfg, line);
    }
  }

  lemma TokensDecode(cfg: Config, line: string)
    ensures Decode(cfg, line) == CommandOf(UpperAll(Tokens(line)[0]), ArgsOf(cfg, Tokens(line)[1..]))
  {}

  lemma CommandShows(cfg: Config, m: Machine, before: Account, line: string)
    requires Shows(cfg, m, before)
    ensures Shows(cfg, Execute(cfg, m, Decode(cfg, line)), Follow(cfg, before, line))
  {
    hide Shows, Execute, Decode, Tokens, UpperAll, Track, HeadAfter, IsDrawn;
    var word := UpperAll(Tokens(line)[0]);
    if word in {"G0", "G1"} {
      MoveLineShows(cfg, m, before, line);
    } else if word in {"G2", "G3"} {
      ArcLineShows(cfg, m, before, line);
    } else {
      OtherLineShows(cfg, m, before, line);
      assert before.legs + [] == before.legs;
    }
  }

  lemma LineShows(cfg: Config, m: Machine, before: Account, line: string)
    requires Shows(cfg, m, before)
    ensures var end, color := before.end + |line| + 1, ColorAfter(line, before.color);
            var legs := if IsDrawn(cfg, line) then Legs(Track(cfg, before.head, line), end, color) else [];
            Shows(cfg, ProcessLine(cfg, m, line),
                  Account(HeadAfter(cfg, before.head, line), color, end, before.legs + legs))
  {
    hide Execute, Decode, DrawnLegs, AreWellDrawn, Legs, Track, HeadAfter, IsDrawn, CommentColor, ColorAfter, LedBy;
    KeywordsColor(line, before.color);
    var end, color := before.end + |line| + 1, ColorAfter(line, before.color);
    CommandShows(cfg, m.(filePos := end, curColor := color), before.(end := end, color := color), line);
  }

  lemma KeywordsColor(line: string, before: Color)
    ensures CommentColor(line, before) == ColorAfter(line, before)
  {
    hide Contains, LowerAll;
    assert |KEYWORDS| == 7;
    var lower := LowerAll(line);
    assert KeywordColor(lower, 7) == Nothing;
    assert KeywordColor(lower, 5) == if Contains(lower, "support") then Just(SkyBlue) else KeywordColor(lower, 6);
    assert KeywordColor(lower, 3) == if Contains(lower, "fill") then Just(Orange) else KeywordColor(lower, 4);
    assert KeywordColor(lower, 1) == if Contains(lower, "outer") then Just(Red) else KeywordColor(lower, 2);
  }

  // ---------------------------------------------------------------- whole texts

  lemma NothingDrawn(cfg: Config)
    ensures Shows(cfg, LayerAgreement.Viewed(cfg, []), PathOf(cfg, []))
  {}

  lemma LastLine(cfg: Config, lines: seq<string>)
    requires lines != []
    ensures var before, line := PathOf(cfg, lines[..|lines| - 1]), lines[|lines| - 1];
            var end, color := before.end + |line| + 1, ColorAfter(line, before.color);
            var legs := if IsDrawn(cfg, line) then Legs(Track(cfg, before.head, line), end, color) else [];
            PathOf(cfg, lines) == Account(HeadAfter(cfg, before.head, line), color, end, before.legs + legs)
  {
    hide HeadAfter, Track, IsDrawn, Legs, ColorAfter;
  }

  /** After any lines the unmirrored lines of all layers are the legs of the path, in order. */
  lemma {:induction false} PathIsDrawn(cfg: Config, lines: seq<string>)
    ensures Shows(cfg, LayerAgreement.Viewed(cfg, lines), PathOf(cfg, lines))
  {
    hide *;
    if lines == [] {
      NothingDrawn(cfg);
    } else {
      var front := lines[..|lines| - 1];
      LastLine(cfg, lines);
      PathIsDrawn(cfg, front);
      LayerAgreement.ViewedSnoc(cfg, lines);
      LineShows(cfg, LayerAgreement.Viewed(cfg, front), PathOf(cfg, front), lines[|lines| - 1]);
    }
  }

  /** So after any load, however it is cut: of the complete lines of the text nothing is missing. */
  lemma LoadedPath(cfg: Config, chunks: seq<string>)
    ensures var m, lines := ViewerSync.Loaded(cfg, chunks), Split(ChunkedParsing.Concat(chunks), '\n');
            && AreWellDrawn(cfg, m.layers)
            && DrawnLegs(cfg, m.layers) == PathOf(cfg, lines[..|lines| - 1]).legs
  {
    hide Shows, AreWellDrawn, DrawnLegs, PathOf, Feed, LayerAgreement.Viewed;
    var text := ChunkedParsing.Concat(chunks);
    var lines := Split(text, '\n');
    ChunkedParsing.ChunkIndependence(cfg, INITIAL, chunks);
    LayerAgreement.FeedReadsCompleteLines(cfg, text);
    PathIsDrawn(cfg, lines[..|lines| - 1]);
    ShownLegs(cfg, LayerAgreement.Viewed(cfg, lines[..|lines| - 1]), PathOf(cfg, lines[..|lines| - 1]));
  }

  lemma ShownLegs(cfg: Config, m: Machine, account: Account)
    requires Shows(cfg, m, account)
    ensures AreWellDrawn(cfg, m.layers) && DrawnLegs(cfg, m.layers) == account.legs
  {}
}
