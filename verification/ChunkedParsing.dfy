/**
 How a file is cut into chunks does not matter: feeding the chunks one by one leaves the parser
 exactly as one call on the whole text does, and what is left over is the unread end of the text.
 */
module ChunkedParsing {
  import opened Text
  import opened GcodeViewer

  function Concat(chunks: seq<string>): string {
    if chunks == [] then "" else chunks[0] + Concat(chunks[1..])
  }

  /** The characters a list of lines stands for, each with its line break. */
  function Weight(lines: seq<string>): nat {
    if lines == [] then 0 else |lines[0]| + 1 + Weight(lines[1..])
  }

  // ---------------------------------------------------------------- the leftover piece is inert

  lemma {:induction false} AddSegmentsIgnorePiece(cfg: Config, m: Machine, points: seq<Position>, piece: string)
    ensures AddSegments(cfg, m.(previousPiece := piece), points)
            == AddSegments(cfg, m, points).(previousPiece := piece)
    ensures AddSegments(cfg, m, points).filePos == m.filePos
    decreases |points|
  {
    if |points| >= 2 {
      AddSegmentsIgnorePiece(cfg, AddSegment(cfg, m, points[0], points[1]), points[1..], piece);
    }
  }

  lemma AddSegmentIgnoresPiece(cfg: Config, m: Machine, p1: Position, p2: Position, piece: string)
    ensures AddSegment(cfg, m.(previousPiece := piece), p1, p2) == AddSegment(cfg, m, p1, p2).(previousPiece := piece)
    ensures AddSegment(cfg, m, p1, p2).filePos == m.filePos
  {}

  lemma EnterLayerIgnoresPiece(m: Machine, line: Position, piece: string)
    ensures EnterLayer(m.(previousPiece := piece), line) == EnterLayer(m, line).(previousPiece := piece)
    ensures EnterLayer(m, line).filePos == m.filePos
  {}

  lemma ExecuteIgnoresPiece(cfg: Config, m: Machine, command: Command, piece: string)
    ensures Execute(cfg, m.(previousPiece := piece), command)
            == Execute(cfg, m, command).(previousPiece := piece)
    ensures Execute(cfg, m, command).filePos == m.filePos
  {
    hide AddSegments, AddSegment, EnterLayer;
    if command.Linear? {
      var line := Destination(m.state, command.args);
      EnterLayerIgnoresPiece(m, line, piece);
      AddSegmentIgnoresPiece(cfg, EnterLayer(m, line), m.state.at, line, piece);
    }
    if command.ArcMove? && 'k' !in command.args && 'r' !in command.args {
      var arc := Arc(
        Destination(m.state, command.args),
        if 'i' in command.args then command.args['i'] else JsNumber.ZERO,
        if 'j' in command.args then command.args['j'] else JsNumber.ZERO,
        command.clockwise);
      AddSegmentsIgnorePiece(cfg, m, cfg.interpolateArc(m.state.at, arc), piece);
    }
  }

  lemma ProcessLineIgnoresPiece(cfg: Config, m: Machine, line: string, piece: string)
    ensures ProcessLine(cfg, m.(previousPiece := piece), line)
            == ProcessLine(cfg, m, line).(previousPiece := piece)
    ensures ProcessLine(cfg, m, line).filePos == m.filePos + |line| + 1
  {
    hide Execute, Decode;
    var command := Decode(cfg, line);
    var read := m.(filePos := m.filePos + |line| + 1, curColor := CommentColor(line, m.curColor));
    ExecuteIgnoresPiece(cfg, read, command, piece);
  }

  lemma {:induction false} ProcessLinesIgnorePiece(cfg: Config, m: Machine, lines: seq<string>, piece: string)
    ensures ProcessLines(cfg, m.(previousPiece := piece), lines)
            == ProcessLines(cfg, m, lines).(previousPiece := piece)
    ensures ProcessLines(cfg, m, lines).filePos == m.filePos + Weight(lines)
    ensures ProcessLines(cfg, m, lines).previousPiece == m.previousPiece
    decreases |lines|
  {
    if lines != [] {
      ProcessLineIgnoresPiece(cfg, m, lines[0], piece);
      ProcessLineIgnoresPiece(cfg, m, lines[0], m.previousPiece);
      ProcessLinesIgnorePiece(cfg, ProcessLine(cfg, m, lines[0]), lines[1..], piece);
    }
  }

  lemma {:induction false} ProcessLinesConcat(cfg: Config, m: Machine, a: seq<string>, b: seq<string>)
    ensures ProcessLines(cfg, m, a + b) == ProcessLines(cfg, ProcessLines(cfg, m, a), b)
    decreases |a|
  {
    if a == [] {
      assert a + b == b;
    } else {
      assert (a + b)[1..] == a[1..] + b;
      ProcessLinesConcat(cfg, ProcessLine(cfg, m, a[0]), a[1..], b);
    }
  }

  // ---------------------------------------------------------------- chunk independence

  lemma FeedTwice(cfg: Config, m: Machine, a: string, b: string)
    ensures Feed(cfg, Feed(cfg, m, a), b) == Feed(cfg, m, a + b)
  {
    hide ProcessLine, ProcessLines, Split, Glue;
    var p, sa, sb := [m.previousPiece], Split(a, '\n'), Split(b, '\n');
    var la := Glue(p, sa);
    var cut := |la| - 1;
    var lb := Glue([la[cut]], sb);
    var whole := Glue(p, Split(a + b, '\n'));
    assert whole == la[..cut] + lb by {
      SplitConcat(a, b, '\n');
      GlueAssociative(m.previousPiece, sa, sb);
      GlueShape(la, sb);
      GlueShape([la[cut]], sb);
    }
    var last := lb[|lb| - 1];
    assert whole[..|whole| - 1] == la[..cut] + lb[..|lb| - 1];
    ProcessLinesIgnorePiece(cfg, m, la[..cut], la[cut]);
    ProcessLinesIgnorePiece(cfg, m, la[..cut], last);
    ProcessLinesConcat(cfg, m.(previousPiece := last), la[..cut], lb[..|lb| - 1]);
  }

  lemma {:induction false} ChunkIndependence(cfg: Config, m: Machine, chunks: seq<string>)
    ensures FeedAll(cfg, m, chunks) == Feed(cfg, m, Concat(chunks))
    decreases |chunks|
  {
    if chunks == [] {
      assert m.previousPiece + "" == m.previousPiece;
    } else {
      ChunkIndependence(cfg, Feed(cfg, m, chunks[0]), chunks[1..]);
      FeedTwice(cfg, m, chunks[0], Concat(chunks[1..]));
    }
  }

  // ---------------------------------------------------------------- where the file position stands

  /** Everything up to the last piece, and that piece, make up the joined text. */
  lemma {:induction false} LastPieceIsSuffix(lines: seq<string>)
    requires |lines| >= 1
    ensures var text, read := Join(lines, '\n'), Weight(lines[..|lines| - 1]);
            read <= |text| && text[read..] == lines[|lines| - 1]
  {
    if |lines| > 1 {
      LastPieceIsSuffix(lines[1..]);
      assert lines[..|lines| - 1][1..] == lines[1..][..|lines| - 2];
      var head := lines[0] + ['\n'];
      var tail := Join(lines[1..], '\n');
      var read := Weight(lines[1..][..|lines| - 2]);
      assert (head + tail)[|head| + read..] == tail[read..];
    }
  }

  /** At every chunk boundary the leftover piece is the text from the file position on. */
  lemma UnreadSuffix(cfg: Config, chunks: seq<string>)
    ensures var m, text := FeedAll(cfg, INITIAL, chunks), Concat(chunks);
            && m.filePos + |m.previousPiece| == |text|
            && m.previousPiece == text[m.filePos..]
            && '\n' !in m.previousPiece
  {
    var text := Concat(chunks);
    ChunkIndependence(cfg, INITIAL, chunks);
    var lines := Split(text, '\n');
    var start := INITIAL.(previousPiece := lines[|lines| - 1]);
    assert Glue([""], lines) == lines by {
      assert "" + lines[0] == lines[0];
    }
    ProcessLinesIgnorePiece(cfg, start, lines[..|lines| - 1], "");
    JoinSplit(text, '\n');
    LastPieceIsSuffix(lines);
  }

  /** `loadGcode`: reset, parse what the reader delivers, finish. */
  method LoadGcode(parser: GCodeParser, chunks: seq<string>)
    modifies parser
    ensures parser.AsMachine() == AddObject(Feed(parser.cfg, INITIAL, Concat(chunks)))
  {
    parser.Reset();
    var i := 0;
    while i < |chunks|
      invariant 0 <= i <= |chunks|
      invariant FeedAll(parser.cfg, parser.AsMachine(), chunks[i..]) == FeedAll(parser.cfg, INITIAL, chunks)
    {
      assert chunks[i..][1..] == chunks[i + 1..];
      parser.Parse(chunks[i]);
      i := i + 1;
    }
    ChunkIndependence(parser.cfg, INITIAL, chunks);
    parser.FinishLoading();
  }
}
