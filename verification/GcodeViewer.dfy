/**
 The streaming G-code reader of the viewer: `GCodeParser` of prettygcode.js.

 `Machine` is the closure state of one parser, and the functions on it say what one line and one
 chunk do. The class `GCodeParser` carries the same state in fields that its methods update in place;
 every method is proved against the function of the same step.
 */
module GcodeViewer {
  import opened JsNumber
  import opened Text

  datatype Position = Position(x: Number, y: Number, z: Number, e: Number, f: Number)

  /** `state`: where the tool is, and whether G91 is in force. */
  datatype Head = Head(at: Position, relative: bool)

  datatype Arc = Arc(target: Position, i: Number, j: Number, clockwise: bool)

  datatype Color = White | Green | Red | Orange | Yellow | SkyBlue

  datatype Point = Point(x: Number, y: Number, z: Number)

  /** One drawn line: two vertices of a layer, with what decides its shade. */
  datatype Stroke = Stroke(from: Point, to: Point, color: Color, evenLayer: bool, mirrored: bool)

  datatype Layer = Layer(z: Number, strokes: seq<Stroke>, filePositions: seq<nat>)

  /** The `userData` of a layer object added to the scene. */
  datatype LayerData = LayerData(layerZ: Number, layerNumber: nat, numLines: nat, filePositions: seq<nat>)

  /** What `interpolateArc` returns: the start, at least one more point, the last one the target. */
  type Polyline = points: seq<Position> | |points| >= 2 witness [ORIGIN, ORIGIN]

  /** The settings and the library calls a parser depends on. */
  datatype Config = Config(
    showMirror: bool,
    parseFloat: string -> Number,
    interpolateArc: (Position, Arc) -> Polyline)

  /** The current layer is the last of `layers`; it is undefined while there is none. */
  datatype Machine = Machine(
    state: Head,
    layers: seq<Layer>,
    drawn: seq<LayerData>,
    curColor: Color,
    filePos: nat,
    previousPiece: string)

  const ORIGIN := Position(ZERO, ZERO, ZERO, ZERO, ZERO)

  const INITIAL := Machine(Head(ORIGIN, false), [], [], White, 0, "")

  // ---------------------------------------------------------------- reading a line

  type Args = map<char, Number>

  datatype Command =
    | Linear(args: Args)
    | ArcMove(clockwise: bool, args: Args)
    | AbsoluteMode
    | RelativeMode
    | SetPosition(args: Args)
    | Other

  /** `line.replace(/;.+/g, '')`: a lone `;` with nothing after it stays. */
  function StripComments(line: string): string
    decreases |line|
  {
    if line == "" then ""
    else if line[0] == ';' && |line| > 1 && !IsLineTerminator(line[1]) then
      StripComments(SkipToTerminator(line[1..]))
    else [line[0]] + StripComments(line[1..])
  }

  function SkipToTerminator(s: string): (rest: string)
    ensures |rest| <= |s|
  {
    if s == "" || IsLineTerminator(s[0]) then s else SkipToTerminator(s[1..])
  }

  /** The argument object: later tokens overwrite earlier ones with the same letter. */
  function ArgsOf(cfg: Config, tokens: seq<string>): Args {
    if tokens == [] then map[]
    else
      var before := ArgsOf(cfg, tokens[..|tokens| - 1]);
      var token := tokens[|tokens| - 1];
      if token == "" then before else before[Lower(token[0]) := cfg.parseFloat(token[1..])]
  }

  function Decode(cfg: Config, line: string): Command {
    var tokens := Split(StripComments(line), ' ');
    CommandOf(UpperAll(tokens[0]), ArgsOf(cfg, tokens[1..]))
  }

  function CommandOf(cmd: string, args: Args): Command {
    if cmd == "G0" || cmd == "G1" then Linear(args)
    else if cmd == "G2" || cmd == "G3" then ArcMove(cmd == "G2", args)
    else if cmd == "G90" then AbsoluteMode
    else if cmd == "G91" then RelativeMode
    else if cmd == "G92" then SetPosition(args)
    else Other
  }

  /** The line colour follows keywords in comments. */
  function CommentColor(line: string, current: Color): Color {
    if ';' !in line then current
    else
      var lower := LowerAll(line);
      if Contains(lower, "inner") then Green
      else if Contains(lower, "outer") || Contains(lower, "perimeter") then Red
      else if Contains(lower, "fill") then Orange
      else if Contains(lower, "skin") then Yellow
      else if Contains(lower, "support") || Contains(lower, "skirt") then SkyBlue
      else current
  }

  // ---------------------------------------------------------------- one command

  /** `args.k !== undefined ? absolute(state.k, args.k) : state.k` */
  function Coordinate(relative: bool, args: Args, key: char, current: Number): Number {
    if key !in args then current else if relative then Plus(current, args[key]) else args[key]
  }

  function Destination(state: Head, args: Args): Position {
    var Head(p, rel) := state;
    Position(
      Coordinate(rel, args, 'x', p.x), Coordinate(rel, args, 'y', p.y), Coordinate(rel, args, 'z', p.z),
      Coordinate(rel, args, 'e', p.e), Coordinate(rel, args, 'f', p.f))
  }

  /** `delta(v1, v2)`: in relative mode it is the second value itself. */
  function Delta(state: Head, v1: Number, v2: Number): Number {
    if state.relative then v2 else Minus(v2, v1)
  }

  function DataOf(layer: Layer, layerNumber: nat): LayerData {
    LayerData(layer.z, layerNumber, |layer.strokes|, layer.filePositions)
  }

  /** `addObject(currentLayer)`: nothing is drawn for a layer without vertices. */
  function AddObject(m: Machine): Machine {
    if m.layers == [] || m.layers[|m.layers| - 1].strokes == [] then m
    else m.(drawn := m.drawn + [DataOf(m.layers[|m.layers| - 1], |m.layers|)])
  }

  function NewLayer(m: Machine, z: Number): Machine {
    var closed := AddObject(m);
    closed.(layers := closed.layers + [Layer(z, [], [])])
  }

  /** A layer begins with the first extruding move at another height. */
  function EnterLayer(m: Machine, line: Position): Machine {
    if IsPositive(Delta(m.state, m.state.at.e, line.e))
       && (m.layers == [] || Differs(line.z, m.layers[|m.layers| - 1].z))
    then NewLayer(m, line.z) else m
  }

  predicate IsDrawable(p: Position) {
    p.x.Fin? && p.y.Fin? && p.z.Fin?
  }

  function Strokes(cfg: Config, m: Machine, p1: Position, p2: Position): (strokes: seq<Stroke>)
    ensures |strokes| == StrokesPerSegment(cfg)
  {
    var even := |m.layers| % 2 == 0;
    [Stroke(Point(p1.x, p1.y, p1.z), Point(p2.x, p2.y, p2.z), m.curColor, even, false)]
    + if cfg.showMirror then
        [Stroke(Point(p1.x, p1.y, Negate(p1.z)), Point(p2.x, p2.y, Negate(p2.z)), m.curColor, even, true)]
      else []
  }

  function StrokesPerSegment(cfg: Config): nat {
    if cfg.showMirror then 2 else 1
  }

  function AddSegment(cfg: Config, m: Machine, p1: Position, p2: Position): Machine {
    var ready := if m.layers == [] then NewLayer(m, p1.z) else m;
    if !IsDrawable(p1) || !IsDrawable(p2) then ready
    else
      var last := |ready.layers| - 1;
      var layer := ready.layers[last];
      ready.(layers := ready.layers[last := layer.(
        strokes := layer.strokes + Strokes(cfg, ready, p1, p2),
        filePositions := layer.filePositions + [ready.filePos])])
  }

  function AddSegments(cfg: Config, m: Machine, points: seq<Position>): Machine
    decreases |points|
  {
    if |points| < 2 then m
    else AddSegments(cfg, AddSegment(cfg, m, points[0], points[1]), points[1..])
  }

  function Execute(cfg: Config, m: Machine, command: Command): Machine {
    match command
    case Linear(args) =>
      var line := Destination(m.state, args);
      var layered := EnterLayer(m, line);
      var segmented := if 'e' in args then AddSegment(cfg, layered, m.state.at, line) else layered;
      segmented.(state := Head(line, false))
    case ArcMove(clockwise, args) =>
      if 'k' in args || 'r' in args then m
      else
        var arc := Arc(
          Destination(m.state, args),
          if 'i' in args then args['i'] else ZERO,
          if 'j' in args then args['j'] else ZERO,
          clockwise);
        var points := cfg.interpolateArc(m.state.at, arc);
        AddSegments(cfg, m, points).(state := Head(points[|points| - 1], false))
    case AbsoluteMode => m.(state := m.state.(relative := false))
    case RelativeMode => m.(state := m.state.(relative := true))
    case SetPosition(args) =>
      var p := m.state.at;
      m.(state := m.state.(at := p.(
        x := Coordinate(false, args, 'x', p.x), y := Coordinate(false, args, 'y', p.y),
        z := Coordinate(false, args, 'z', p.z), e := Coordinate(false, args, 'e', p.e))))
    case Other => m
  }

  // ---------------------------------------------------------------- one line, one chunk

  function ProcessLine(cfg: Config, m: Machine, line: string): Machine {
    var read := m.(filePos := m.filePos + |line| + 1, curColor := CommentColor(line, m.curColor));
    Execute(cfg, read, Decode(cfg, line))
  }

  function ProcessLines(cfg: Config, m: Machine, lines: seq<string>): Machine
    decreases |lines|
  {
    if lines == [] then m else ProcessLines(cfg, ProcessLine(cfg, m, lines[0]), lines[1..])
  }

  /** One call of `parse`: the pieces of the chunk, the first one completing the piece left over. */
  function Feed(cfg: Config, m: Machine, chunk: string): Machine {
    var lines := Glue([m.previousPiece], Split(chunk, '\n'));
    ProcessLines(cfg, m.(previousPiece := lines[|lines| - 1]), lines[..|lines| - 1])
  }

  function FeedAll(cfg: Config, m: Machine, chunks: seq<string>): Machine
    decreases |chunks|
  {
    if chunks == [] then m else FeedAll(cfg, Feed(cfg, m, chunks[0]), chunks[1..])
  }

  // ---------------------------------------------------------------- the parser itself

  class GCodeParser {
    const cfg: Config
    var state: Head
    var layers: seq<Layer>
    var gcodeGroup: seq<LayerData>
    var curColor: Color
    var filePos: nat
    var previousPiece: string

    ghost function AsMachine(): Machine
      reads this
    {
      Machine(state, layers, gcodeGroup, curColor, filePos, previousPiece)
    }

    constructor (cfg: Config)
      ensures this.cfg == cfg && AsMachine() == INITIAL
    {
      this.cfg := cfg;
      state, layers, gcodeGroup := Head(ORIGIN, false), [], [];
      curColor, filePos, previousPiece := White, 0, "";
    }

    method Reset()
      modifies this
      ensures AsMachine() == INITIAL
    {
      state, layers, gcodeGroup := Head(ORIGIN, false), [], [];
      curColor, filePos, previousPiece := White, 0, "";
    }

    method AddCurrentLayer()
      modifies this`gcodeGroup
      ensures AsMachine() == AddObject(old(AsMachine()))
    {
      if |layers| > 0 {
        var layer := layers[|layers| - 1];
        if |layer.strokes| > 0 {
          gcodeGroup := gcodeGroup + [DataOf(layer, |layers|)];
        }
      }
    }

    method StartLayer(z: Number)
      modifies this`gcodeGroup, this`layers
      ensures AsMachine() == NewLayer(old(AsMachine()), z)
    {
      AddCurrentLayer();
      layers := layers + [Layer(z, [], [])];
    }

    method PushSegment(p1: Position, p2: Position)
      modifies this`gcodeGroup, this`layers
      ensures AsMachine() == AddSegment(cfg, old(AsMachine()), p1, p2)
    {
      if |layers| == 0 {
        StartLayer(p1.z);
      }
      if !IsDrawable(p1) || !IsDrawable(p2) {
        return;
      }
      var last := |layers| - 1;
      var layer := layers[last];
      var even := |layers| % 2 == 0;
      var strokes := layer.strokes
        + [Stroke(Point(p1.x, p1.y, p1.z), Point(p2.x, p2.y, p2.z), curColor, even, false)];
      if cfg.showMirror {
        strokes := strokes
          + [Stroke(Point(p1.x, p1.y, Negate(p1.z)), Point(p2.x, p2.y, Negate(p2.z)), curColor, even, true)];
      }
      layers := layers[last := layer.(strokes := strokes, filePositions := layer.filePositions + [filePos])];
      assert strokes == layer.strokes + Strokes(cfg, AsMachine(), p1, p2);
    }

    method Run(command: Command)
      modifies this`state, this`layers, this`gcodeGroup
      ensures AsMachine() == Execute(cfg, old(AsMachine()), command)
    {
      match command
      case Linear(args) =>
        var line := Destination(state, args);
        if IsPositive(Delta(state, state.at.e, line.e)) {
          if |layers| == 0 || Differs(line.z, layers[|layers| - 1].z) {
            StartLayer(line.z);
          }
        }
        if 'e' in args {
          PushSegment(state.at, line);
        }
        state := Head(line, false);
      case ArcMove(clockwise, args) =>
        if 'k' !in args && 'r' !in args {
          var arc := Arc(
            Destination(state, args),
            if 'i' in args then args['i'] else ZERO,
            if 'j' in args then args['j'] else ZERO,
            clockwise);
          var points := cfg.interpolateArc(state.at, arc);
          ghost var before := AsMachine();
          var index := 1;
          while index < |points|
            invariant 1 <= index <= |points|
            invariant AddSegments(cfg, AsMachine(), points[index - 1..]) == AddSegments(cfg, before, points)
            invariant state == old(state) && curColor == old(curColor)
            invariant filePos == old(filePos) && previousPiece == old(previousPiece)
          {
            assert points[index - 1..][1..] == points[index..];
            PushSegment(points[index - 1], points[index]);
            index := index + 1;
          }
          state := Head(points[|points| - 1], false);
        }
      case AbsoluteMode =>
        state := state.(relative := false);
      case RelativeMode =>
        state := state.(relative := true);
      case SetPosition(args) =>
        var p := state.at;
        p := p.(x := Coordinate(false, args, 'x', p.x));
        p := p.(y := Coordinate(false, args, 'y', p.y));
        p := p.(z := Coordinate(false, args, 'z', p.z));
        p := p.(e := Coordinate(false, args, 'e', p.e));
        state := state.(at := p);
      case Other =>
    }

    method Parse(chunk: string)
      modifies this
      ensures AsMachine() == Feed(cfg, old(AsMachine()), chunk)
    {
      hide Execute, Decode, CommentColor, Split;
      var lines := Split(chunk, '\n');
      lines := lines[0 := previousPiece + lines[0]];
      assert lines == Glue([previousPiece], Split(chunk, '\n'));
      previousPiece := lines[|lines| - 1];
      ghost var start := AsMachine();
      ghost var complete := lines[..|lines| - 1];
      var i := 0;
      while i < |lines| - 1
        invariant 0 <= i <= |lines| - 1
        invariant ProcessLines(cfg, AsMachine(), complete[i..]) == ProcessLines(cfg, start, complete)
      {
        assert complete[i..][0] == lines[i] && complete[i..][1..] == complete[i + 1..];
        filePos := filePos + |lines[i]| + 1;
        curColor := CommentColor(lines[i], curColor);
        Run(Decode(cfg, lines[i]));
        i := i + 1;
      }
    }

    method FinishLoading()
      modifies this`gcodeGroup
      ensures AsMachine() == AddObject(old(AsMachine()))
    {
      AddCurrentLayer();
    }
  }
}
