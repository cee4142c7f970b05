/**
 The two layer detectors are independent programs that read the same text. On lines of absolute moves
 that both read alike they follow the same tool, and they find the same layers at the same lines
 exactly when the first move that carries E extrudes.
 */
module LayerAgreement {
  import opened JsNumber
  import opened Text
  import Viewer = GcodeViewer
  import ChunkedParsing
  import opened LayerMap

  // ---------------------------------------------------------------- plain lines

  /** The line up to its first semicolon. */
  function Code(line: string): string {
    if line == "" || line[0] == ';' then "" else [line[0]] + Code(line[1..])
  }

  /** A semicolon that ends the line with nothing before or after it to make it a comment for both. */
  predicate BareSemicolon(line: string) {
    line != "" && Code(line) == line[..|line| - 1] && line[|line| - 1] == ';'
  }

  predicate IsPlainCode(pf: ParseFloat, code: string) {
    var parts := Words(code);
    && (parts != [] ==> code[0] != ' ')
    && (parts != [] ==> UpperAll(parts[0]) != "G2" && UpperAll(parts[0]) != "G3")
    && (KindOf(parts).MoveLine? || KindOf(parts).Reset? ==> forall w | w in parts[1..] :: pf(w[1..]).Fin?)
  }

  /**
   A line that both readers can be expected to understand: blanks are spaces, the command comes first,
   numbers parse, no arc.
   */
  predicate IsPlain(pf: ParseFloat, line: string) {
    && (forall c | c in line :: IsBlank(c) ==> c == ' ')
    && !BareSemicolon(line)
    && IsPlainCode(pf, Code(line))
  }

  /** The line sets no relative mode. */
  predicate IsAbsolute(line: string) {
    !KindOf(Parts(line)).Relative? && !KindOf(Parts(line)).RelativeE?
  }

  // ---------------------------------------------------------------- both readers see the same words

  lemma {:induction false} SameCode(line: string)
    requires forall c | c in line :: !IsLineTerminator(c)
    ensures StripComment(line) == Code(line)
    ensures !BareSemicolon(line) ==> Viewer.StripComments(line) == Code(line)
  {
    if line != "" {
      if line[0] == ';' {
        assert forall c | c in line[1..] :: c in line;
        if |line| > 1 {
          SkipsAll(line[1..]);
        } else {
          assert line[..0] == "" == Code(line);
        }
      } else {
        SameCode(line[1..]);
        if BareSemicolon(line[1..]) {
          assert line[..|line| - 1] == [line[0]] + line[1..][..|line| - 2];
        }
      }
    }
  }

  lemma {:induction false} SkipsAll(s: string)
    requires forall c | c in s :: !IsLineTerminator(c)
    ensures Viewer.SkipToTerminator(s) == ""
  {
    if s != "" {
      SkipsAll(s[1..]);
    }
  }

  lemma {:induction false} NonEmptySnoc(pieces: seq<string>, piece: string)
    ensures NonEmpty(pieces + [piece]) == if piece == "" then NonEmpty(pieces) else NonEmpty(pieces) + [piece]
  {
    if pieces != [] {
      assert (pieces + [piece])[1..] == pieces[1..] + [piece];
      NonEmptySnoc(pieces[1..], piece);
    }
  }

  lemma ArgsOfSnoc(cfg: Viewer.Config, front: seq<string>, last: string)
    ensures var before := Viewer.ArgsOf(cfg, front);
            Viewer.ArgsOf(cfg, front + [last])
            == if last == "" then before else before[Lower(last[0]) := cfg.parseFloat(last[1..])]
  {
    assert (front + [last])[..|front|] == front;
  }

  lemma {:induction false} EmptyTokensAreSkipped(cfg: Viewer.Config, tokens: seq<string>)
    ensures Viewer.ArgsOf(cfg, tokens) == Viewer.ArgsOf(cfg, NonEmpty(tokens))
  {
    if tokens != [] {
      var front, last := tokens[..|tokens| - 1], tokens[|tokens| - 1];
      ArgsOfSnoc(cfg, front, last);
      ArgsOfSnoc(cfg, NonEmpty(front), last);
      EmptyTokensAreSkipped(cfg, front);
      NonEmptySnoc(front, last);
      assert tokens == front + [last];
      hide *;
    } else {
      assert NonEmpty(tokens) == tokens;
    }
  }

  /** What the viewer decodes, in terms of the words that the layer map reads. */
  function Expected(cfg: Viewer.Config, parts: seq<string>): Viewer.Command {
    match KindOf(parts)
    case MoveLine => Viewer.Linear(Viewer.ArgsOf(cfg, Tail(parts)))
    case Reset => Viewer.SetPosition(Viewer.ArgsOf(cfg, Tail(parts)))
    case Absolute => Viewer.AbsoluteMode
    case Relative => Viewer.RelativeMode
    case _ => Viewer.Other
  }

  lemma SameWords(cfg: Viewer.Config, line: string)
    requires IsPlain(cfg.parseFloat, line)
    ensures Parts(line) == Words(Code(line))
    ensures Viewer.Decode(cfg, line) == Expected(cfg, Parts(line))
  {
    hide Viewer.CommandOf, Expected, KindOf, UpperAll;
    var code := Code(line);
    SameCode(line);
    CodeIsPrefix(line);
    SplitAtSpaces(code);
    var tokens, parts := Split(code, ' '), Words(code);
    EmptyTokensAreSkipped(cfg, tokens[1..]);
    if parts == [] {
      FirstTokenEmpty(code);
    }
    SameCommand(cfg, tokens[0], Viewer.ArgsOf(cfg, tokens[1..]), parts);
  }

  lemma SameCommand(cfg: Viewer.Config, token: string, args: Viewer.Args, parts: seq<string>)
    requires if parts == [] then token == "" else token == parts[0] && args == Viewer.ArgsOf(cfg, parts[1..])
    requires parts != [] ==> UpperAll(parts[0]) != "G2" && UpperAll(parts[0]) != "G3"
    ensures Viewer.CommandOf(UpperAll(token), args) == Expected(cfg, parts)
  {
    hide Viewer.ArgsOf;
  }

  lemma {:induction false} CodeIsPrefix(line: string)
    ensures Code(line) <= line
    ensures forall c | c in Code(line) :: c in line
  {
    if line != "" && line[0] != ';' {
      CodeIsPrefix(line[1..]);
    }
  }

  lemma FirstTokenEmpty(code: string)
    requires Words(code) == []
    requires forall c | c in code :: IsBlank(c) ==> c == ' '
    ensures Split(code, ' ')[0] == ""
  {
    SplitAtSpaces(code);
  }

  // ---------------------------------------------------------------- lines read alike

  /** The numbers a list of words gives: the last one that parses for each letter. */
  function Coordinates(pf: ParseFloat, words: seq<string>): map<char, real> {
    if words == [] then map[]
    else
      var before, word := Coordinates(pf, words[..|words| - 1]), words[|words| - 1];
      if word == "" || pf(word[1..]).NaN? then before else before[Lower(word[0]) := pf(word[1..]).value]
  }

  predicate SameCoordinate(args: Viewer.Args, read: map<char, real>, key: char) {
    if key in read then key in args && args[key] == Fin(read[key]) else key !in args
  }

  predicate SameCoordinates(args: Viewer.Args, read: map<char, real>) {
    && SameCoordinate(args, read, 'x') && SameCoordinate(args, read, 'y')
    && SameCoordinate(args, read, 'z') && SameCoordinate(args, read, 'e')
  }

  /**
   Both readers take the line for the same command of absolute positioning, with the same coordinates.
   Lines without effect need not be the same command.
   */
  predicate IsReadAlike(cfg: Viewer.Config, line: string) {
    var parts, command := Parts(line), Viewer.Decode(cfg, line);
    match KindOf(parts)
    case MoveLine => command.Linear? && SameCoordinates(command.args, Coordinates(cfg.parseFloat, Tail(parts)))
    case Reset => command.SetPosition? && SameCoordinates(command.args, Coordinates(cfg.parseFloat, Tail(parts)))
    case Relative => false
    case RelativeE => false
    case _ => command.Other? || command.AbsoluteMode?
  }

  lemma {:induction false} ParsedArguments(cfg: Viewer.Config, words: seq<string>)
    requires forall w | w in words :: w != "" && cfg.parseFloat(w[1..]).Fin?
    ensures SameCoordinates(Viewer.ArgsOf(cfg, words), Coordinates(cfg.parseFloat, words))
  {
    if words != [] {
      var front := words[..|words| - 1];
      assert forall w | w in front :: w in words;
      ParsedArguments(cfg, front);
      assert words[|words| - 1] in words;
    }
  }

  /** Plain lines of absolute positioning are read alike. */
  lemma PlainIsReadAlike(cfg: Viewer.Config, line: string)
    requires IsPlain(cfg.parseFloat, line) && IsAbsolute(line)
    ensures IsReadAlike(cfg, line)
  {
    SameWords(cfg, line);
    PlainParts(cfg.parseFloat, line);
    if KindOf(Parts(line)).MoveLine? || KindOf(Parts(line)).Reset? {
      ParsedArguments(cfg, Tail(Parts(line)));
    }
    hide KindOf, Parts, Viewer.Decode, Viewer.ArgsOf, IsPlain, SameCoordinates, Coordinates;
  }

  lemma PlainParts(pf: ParseFloat, raw: string)
    requires IsPlain(pf, raw)
    ensures KindOf(Parts(raw)).MoveLine? || KindOf(Parts(raw)).Reset? ==>
              forall w | w in Tail(Parts(raw)) :: w != "" && pf(w[1..]).Fin?
  {
    SameCode(raw);
    if KindOf(Parts(raw)).MoveLine? || KindOf(Parts(raw)).Reset? {
      ArgumentsParse(pf, raw);
    }
  }

  lemma ArgumentsParse(pf: ParseFloat, raw: string)
    requires IsPlain(pf, raw) && (KindOf(Parts(raw)).MoveLine? || KindOf(Parts(raw)).Reset?)
    ensures forall w | w in Tail(Parts(raw)) :: w != "" && pf(w[1..]).Fin?
  {
    SameCode(raw);
    var parts := Words(Code(raw));
    assert Parts(raw) == parts;
    forall w | w in Tail(parts) ensures w != "" {
      assert w in parts;
    }
  }

  // ---------------------------------------------------------------- both readers move the same tool

  /** The viewer's head and the scan's variables are the same position, both absolute. */
  ghost predicate SameTool(m: Viewer.Machine, s: Scan) {
    && !m.state.relative && !s.relative && !s.relativeE
    && m.state.at.x == Fin(s.x) && m.state.at.y == Fin(s.y)
    && m.state.at.z == Fin(s.z) && m.state.at.e == Fin(s.e)
  }

  function ArgOr(args: Viewer.Args, key: char, current: real): Number {
    if key in args then args[key] else Fin(current)
  }

  function ReadOr(read: map<char, real>, key: char, current: real): real {
    if key in read then read[key] else current
  }

  lemma {:induction false} TargetReads(pf: ParseFloat, s: Scan, words: seq<string>)
    requires !s.relative && !s.relativeE
    ensures var read, t := Coordinates(pf, words), MoveTarget(pf, s, words);
            && t.x == ReadOr(read, 'x', s.x) && t.y == ReadOr(read, 'y', s.y)
            && t.z == ReadOr(read, 'z', s.z) && t.e == ReadOr(read, 'e', s.e)
            && (t.hasE <==> 'e' in read)
  {
    if words != [] {
      TargetReads(pf, s, words[..|words| - 1]);
    }
  }

  lemma SameTarget(pf: ParseFloat, s: Scan, words: seq<string>, args: Viewer.Args)
    requires !s.relative && !s.relativeE && SameCoordinates(args, Coordinates(pf, words))
    ensures var t := MoveTarget(pf, s, words);
            && ArgOr(args, 'x', s.x) == Fin(t.x) && ArgOr(args, 'y', s.y) == Fin(t.y)
            && ArgOr(args, 'z', s.z) == Fin(t.z) && ArgOr(args, 'e', s.e) == Fin(t.e)
            && ('e' in args <==> t.hasE)
            && (!t.hasE ==> t.e == s.e)
  {
    TargetReads(pf, s, words);
    hide MoveTarget, Coordinates;
  }

  /** The scan `r` is `s` with the coordinates read. */
  predicate IsReset(s: Scan, r: Scan, read: map<char, real>) {
    && r.x == ReadOr(read, 'x', s.x) && r.y == ReadOr(read, 'y', s.y)
    && r.z == ReadOr(read, 'z', s.z) && r.e == ReadOr(read, 'e', s.e)
  }

  lemma {:induction false} ResetReads(pf: ParseFloat, s: Scan, words: seq<string>)
    ensures IsReset(s, ResetTo(pf, s, words), Coordinates(pf, words))
  {
    if words != [] {
      hide IsReset, ResetWord;
      var front, word := words[..|words| - 1], words[|words| - 1];
      ResetReads(pf, s, front);
      var r, read := ResetTo(pf, s, front), Coordinates(pf, front);
      if word != "" && pf(word[1..]).Fin? {
        ResetReadsWord(pf, s, r, read, word);
      } else {
        ResetSkipsWord(pf, r, word);
      }
    } else {
      assert IsReset(s, s, map[]);
    }
  }

  lemma ResetReadsWord(pf: ParseFloat, s: Scan, r: Scan, read: map<char, real>, word: string)
    requires IsReset(s, r, read) && word != "" && pf(word[1..]).Fin?
    ensures IsReset(s, ResetWord(pf, r, word), read[Lower(word[0]) := pf(word[1..]).value])
  {}

  lemma ResetSkipsWord(pf: ParseFloat, r: Scan, word: string)
    requires word == "" || pf(word[1..]).NaN?
    ensures ResetWord(pf, r, word) == r
  {}

  lemma SameReset(pf: ParseFloat, s: Scan, words: seq<string>, args: Viewer.Args)
    requires SameCoordinates(args, Coordinates(pf, words))
    ensures var r := ResetTo(pf, s, words);
            && ArgOr(args, 'x', s.x) == Fin(r.x) && ArgOr(args, 'y', s.y) == Fin(r.y)
            && ArgOr(args, 'z', s.z) == Fin(r.z) && ArgOr(args, 'e', s.e) == Fin(r.e)
  {
    ResetReads(pf, s, words);
    hide ResetTo, Coordinates;
  }

  // ---------------------------------------------------------------- layers begin at the same lines

  /** `offset` is where some line starts and `position` where it ends. */
  ghost predicate SameLine(lines: seq<string>, offset: nat, position: nat) {
    exists i | 0 <= i < |lines| :: offset == LineStart(lines, i) && position == offset + |lines[i]| + 1
  }

  /** As many layers as offsets, and each layer's first position ends the line its offset starts. */
  ghost predicate SameLayers(layers: seq<Viewer.Layer>, offsets: seq<nat>, lines: seq<string>) {
    && |layers| == |offsets|
    && forall k | 0 <= k < |layers| :: BeginsAt(layers[k], lines, offsets[k])
  }

  ghost predicate BeginsAt(layer: Viewer.Layer, lines: seq<string>, offset: nat) {
    layer.filePositions != [] && SameLine(lines, offset, layer.filePositions[0])
  }

  ghost predicate SameHeight(layers: seq<Viewer.Layer>, z: LayerZ) {
    if layers == [] then z == NoLayer else z.LayerAt? && layers[|layers| - 1].z == Fin(z.z)
  }

  /** Tool, layers and file position agree after the lines read so far. */
  ghost predicate Together(m: Viewer.Machine, s: Scan, lines: seq<string>) {
    && SameTool(m, s)
    && SameHeight(m.layers, s.currentLayerZ)
    && SameLayers(m.layers, s.layerOffsets, lines)
    && m.filePos == s.byteOffset == LineStart(lines, |lines|)
  }

  predicate IsMove(line: string) {
    KindOf(Parts(line)).MoveLine?
  }

  function TargetOf(pf: ParseFloat, s: Scan, line: string): Target {
    MoveTarget(pf, s, Tail(Parts(line)))
  }

  /** A G0/G1 line with an E word. */
  predicate CarriesE(pf: ParseFloat, line: string) {
    IsMove(line) && TargetOf(pf, START, line).hasE
  }

  /** The line raises E above where the lines before it left E. */
  predicate Extrudes(pf: ParseFloat, before: seq<string>, line: string) {
    var s := ScanLines(pf, before);
    TargetOf(pf, s, line).e > s.e
  }

  /** The first move that carries E, if there is one, extrudes. */
  ghost predicate FirstEMoveExtrudes(pf: ParseFloat, lines: seq<string>) {
    forall i | 0 <= i < |lines| && CarriesE(pf, lines[i]) && NoneCarriesE(pf, lines[..i]) ::
      Extrudes(pf, lines[..i], lines[i])
  }

  ghost predicate NoneCarriesE(pf: ParseFloat, lines: seq<string>) {
    forall line | line in lines :: !CarriesE(pf, line)
  }

  lemma {:induction false} HasEIsLexical(pf: ParseFloat, s: Scan, s': Scan, words: seq<string>)
    ensures MoveTarget(pf, s, words).hasE == MoveTarget(pf, s', words).hasE
  {
    if words != [] {
      HasEIsLexical(pf, s, s', words[..|words| - 1]);
    }
  }

  // ---------------------------------------------------------------- one line keeps them together

  /** Same layers with the same first positions, or one more layer that starts with `position`. */
  ghost predicate LayersGrow(before: seq<Viewer.Layer>, after: seq<Viewer.Layer>, begins: bool, position: nat) {
    && |after| == |before| + (if begins then 1 else 0)
    && (forall k | 0 <= k < |before| :: KeepsFirst(before[k], after[k]))
    && (begins ==> after[|before|].filePositions == [position])
  }

  ghost predicate KeepsFirst(before: Viewer.Layer, after: Viewer.Layer) {
    before.filePositions != [] ==>
      after.filePositions != [] && after.filePositions[0] == before.filePositions[0]
  }

  lemma MoveLayers(cfg: Viewer.Config, m: Viewer.Machine, s: Scan, args: Viewer.Args, t: Target)
    requires SameTool(m, s) && SameHeight(m.layers, s.currentLayerZ)
    requires ArgOr(args, 'x', s.x) == Fin(t.x) && ArgOr(args, 'y', s.y) == Fin(t.y)
    requires ArgOr(args, 'z', s.z) == Fin(t.z) && ArgOr(args, 'e', s.e) == Fin(t.e)
    requires 'e' in args <==> t.hasE
    requires t.hasE && m.layers == [] ==> t.e > s.e
    ensures var after := Viewer.Execute(cfg, m, Viewer.Linear(args));
            && SameTool(after, TakeMove(s, t))
            && SameHeight(after.layers, TakeMove(s, t).currentLayerZ)
            && LayersGrow(m.layers, after.layers, BeginsLayer(s, t), m.filePos)
            && after.filePos == m.filePos
  {
    var line := Viewer.Destination(m.state, args);
    assert line.x == Fin(t.x) && line.y == Fin(t.y) && line.z == Fin(t.z) && line.e == Fin(t.e);
    var layered := Viewer.EnterLayer(m, line);
    assert IsPositive(Viewer.Delta(m.state, m.state.at.e, line.e)) <==> t.e > s.e;
    assert BeginsLayer(s, t) ==> layered == Viewer.NewLayer(m, line.z);
    assert !BeginsLayer(s, t) ==> layered == m;
    if t.hasE {
      PushGrows(cfg, layered, m.state.at, line);
    }
  }

  /** Adding a drawable segment appends one position to the last layer. */
  lemma PushGrows(cfg: Viewer.Config, m: Viewer.Machine, p1: Viewer.Position, p2: Viewer.Position)
    requires m.layers != [] && Viewer.IsDrawable(p1) && Viewer.IsDrawable(p2)
    ensures var after, last := Viewer.AddSegment(cfg, m, p1, p2), |m.layers| - 1;
            && |after.layers| == |m.layers|
            && (forall k | 0 <= k < last :: after.layers[k] == m.layers[k])
            && after.layers[last].z == m.layers[last].z
            && after.layers[last].filePositions == m.layers[last].filePositions + [m.filePos]
            && after.filePos == m.filePos && after.state == m.state
  {}

  lemma SameLineExtends(lines: seq<string>, raw: string, offset: nat, position: nat)
    requires SameLine(lines, offset, position)
    ensures SameLine(lines + [raw], offset, position)
  {
    var i :| 0 <= i < |lines| && offset == LineStart(lines, i) && position == offset + |lines[i]| + 1;
    LineStartPrefix(lines + [raw], lines, i);
    assert (lines + [raw])[i] == lines[i];
  }

  lemma LastLine(lines: seq<string>, raw: string)
    ensures var offset := LineStart(lines, |lines|);
            && SameLine(lines + [raw], offset, offset + |raw| + 1)
            && LineStart(lines + [raw], |lines| + 1) == offset + |raw| + 1
  {
    LineStartPrefix(lines + [raw], lines, |lines|);
    assert (lines + [raw])[|lines|] == raw;
  }

  /** The layers grow by the line that starts at the end of `lines`, on both sides. */
  lemma SameLayersGrow(
    before: seq<Viewer.Layer>, after: seq<Viewer.Layer>, offsets: seq<nat>, lines: seq<string>, raw: string,
    begins: bool)
    requires SameLayers(before, offsets, lines)
    requires LayersGrow(before, after, begins, LineStart(lines, |lines|) + |raw| + 1)
    ensures SameLayers(after, if begins then offsets + [LineStart(lines, |lines|)] else offsets, lines + [raw])
  {
    hide BeginsAt, LineStart, KeepsFirst, SameLine;
    var all, start := lines + [raw], LineStart(lines, |lines|);
    var offsets' := if begins then offsets + [start] else offsets;
    forall k | 0 <= k < |before| ensures BeginsAt(after[k], all, offsets[k]) {
      LayerStaysMatched(before[k], after[k], offsets[k], lines, raw);
    }
    if begins {
      LayerIsMatched(after[|before|], lines, raw);
    }
    assert forall k | 0 <= k < |after| :: BeginsAt(after[k], all, offsets'[k]);
  }

  lemma LayerStaysMatched(before: Viewer.Layer, after: Viewer.Layer, offset: nat, lines: seq<string>, raw: string)
    requires BeginsAt(before, lines, offset) && KeepsFirst(before, after)
    ensures BeginsAt(after, lines + [raw], offset)
  {
    SameLineExtends(lines, raw, offset, before.filePositions[0]);
  }

  lemma LayerIsMatched(layer: Viewer.Layer, lines: seq<string>, raw: string)
    requires layer.filePositions == [LineStart(lines, |lines|) + |raw| + 1]
    ensures BeginsAt(layer, lines + [raw], LineStart(lines, |lines|))
  {
    LastLine(lines, raw);
  }

  lemma MoveLineTogether(
    cfg: Viewer.Config, m: Viewer.Machine, s: Scan, lines: seq<string>, raw: string, words: seq<string>,
    args: Viewer.Args)
    requires Together(m, s, lines)
    requires SameCoordinates(args, Coordinates(cfg.parseFloat, words))
    requires var t := MoveTarget(cfg.parseFloat, s, words); t.hasE && m.layers == [] ==> t.e > s.e
    ensures var read := m.(filePos := m.filePos + |raw| + 1, curColor := Viewer.CommentColor(raw, m.curColor));
            var scanned := Interpret(cfg.parseFloat, s, MoveLine, words);
            Together(Viewer.Execute(cfg, read, Viewer.Linear(args)),
                     scanned.(byteOffset := s.byteOffset + |raw| + 1), lines + [raw])
  {
    hide SameLayers, Viewer.Execute, LayersGrow, MoveTarget, Viewer.CommentColor, SameHeight, LineStart,
      SameCoordinates, Coordinates;
    var read := m.(filePos := m.filePos + |raw| + 1, curColor := Viewer.CommentColor(raw, m.curColor));
    var t := MoveTarget(cfg.parseFloat, s, words);
    SameTarget(cfg.parseFloat, s, words, args);
    MoveLayers(cfg, read, s, args, t);
    var after := Viewer.Execute(cfg, read, Viewer.Linear(args));
    SameLayersGrow(m.layers, after.layers, s.layerOffsets, lines, raw, BeginsLayer(s, t));
    LastLine(lines, raw);
  }

  lemma OtherLineTogether(
    cfg: Viewer.Config, m: Viewer.Machine, s: Scan, lines: seq<string>, raw: string, kind: Kind, words: seq<string>,
    command: Viewer.Command)
    requires Together(m, s, lines)
    requires !kind.MoveLine? && !kind.Relative? && !kind.RelativeE?
    requires if kind.Reset? then
               command.SetPosition? && SameCoordinates(command.args, Coordinates(cfg.parseFloat, words))
             else command.Other? || command.AbsoluteMode?
    ensures var read := m.(filePos := m.filePos + |raw| + 1, curColor := Viewer.CommentColor(raw, m.curColor));
            var scanned := Interpret(cfg.parseFloat, s, kind, words);
            Together(Viewer.Execute(cfg, read, command),
                     scanned.(byteOffset := s.byteOffset + |raw| + 1), lines + [raw])
  {
    hide SameLayers, SameCoordinates, Coordinates;
    SameLayersGrow(m.layers, m.layers, s.layerOffsets, lines, raw, false);
    LastLine(lines, raw);
    if kind.Reset? {
      SameReset(cfg.parseFloat, s, words, command.args);
      ResetKeepsRecord(cfg.parseFloat, s, words);
    }
  }

  lemma LineTogether(cfg: Viewer.Config, m: Viewer.Machine, s: Scan, lines: seq<string>, raw: string)
    requires Together(m, s, lines) && IsReadAlike(cfg, raw)
    requires IsMove(raw) && TargetOf(cfg.parseFloat, s, raw).hasE && m.layers == [] ==>
               TargetOf(cfg.parseFloat, s, raw).e > s.e
    ensures Together(Viewer.ProcessLine(cfg, m, raw), ScanLine(cfg.parseFloat, s, raw), lines + [raw])
  {
    hide Together, KindOf, Parts, Viewer.Decode, Viewer.Execute, Interpret, MoveTarget, Viewer.CommentColor,
      SameCoordinates, Coordinates;
    var parts, command := Parts(raw), Viewer.Decode(cfg, raw);
    if IsMove(raw) {
      MoveLineTogether(cfg, m, s, lines, raw, Tail(parts), command.args);
    } else {
      OtherLineTogether(cfg, m, s, lines, raw, KindOf(parts), Tail(parts), command);
    }
  }

  // ---------------------------------------------------------------- whole texts

  ghost predicate AllReadAlike(cfg: Viewer.Config, lines: seq<string>) {
    forall line | line in lines :: IsReadAlike(cfg, line)
  }

  function Viewed(cfg: Viewer.Config, lines: seq<string>): Viewer.Machine {
    Viewer.ProcessLines(cfg, Viewer.INITIAL, lines)
  }

  lemma ViewedSnoc(cfg: Viewer.Config, lines: seq<string>)
    requires lines != []
    ensures Viewed(cfg, lines) == Viewer.ProcessLine(cfg, Viewed(cfg, lines[..|lines| - 1]), lines[|lines| - 1])
  {
    hide Viewer.ProcessLine;
    var front, raw := lines[..|lines| - 1], lines[|lines| - 1];
    assert lines == front + [raw];
    ChunkedParsing.ProcessLinesConcat(cfg, Viewer.INITIAL, front, [raw]);
    assert [raw][1..] == [];
  }

  lemma FirstEMovePrefix(pf: ParseFloat, lines: seq<string>, n: nat)
    requires n <= |lines| && FirstEMoveExtrudes(pf, lines)
    ensures FirstEMoveExtrudes(pf, lines[..n])
  {
    hide CarriesE, Extrudes, NoneCarriesE;
    var front := lines[..n];
    forall i | 0 <= i < n && CarriesE(pf, front[i]) && NoneCarriesE(pf, front[..i])
      ensures Extrudes(pf, front[..i], front[i])
    {
      assert front[..i] == lines[..i] && front[i] == lines[i];
    }
  }

  /** A layer begins on the scan's side with this line exactly when the first E is in it. */
  lemma FirstLayer(pf: ParseFloat, s: Scan, raw: string)
    requires s.currentLayerZ == NoLayer && s.layerOffsets == []
    requires CarriesE(pf, raw) ==> TargetOf(pf, s, raw).e > s.e
    ensures ScanLine(pf, s, raw).layerOffsets == [] <==> !CarriesE(pf, raw)
  {
    hide KindOf, Parts;
    var parts := Parts(raw);
    HasEIsLexical(pf, s, START, Tail(parts));
    ResetKeepsRecord(pf, s, Tail(parts));
  }

  lemma NothingTogether()
    ensures Together(Viewer.INITIAL, START, [])
  {}

  lemma NoneCarriesESnoc(pf: ParseFloat, front: seq<string>, raw: string)
    ensures NoneCarriesE(pf, front + [raw]) <==> NoneCarriesE(pf, front) && !CarriesE(pf, raw)
  {
    hide CarriesE;
    assert forall line | line in front :: line in front + [raw];
    assert raw in front + [raw];
  }

  lemma LayersBeginWithE(
    pf: ParseFloat, m: Viewer.Machine, s: Scan, front: seq<string>, m': Viewer.Machine, raw: string)
    requires Together(m, s, front) && Together(m', ScanLine(pf, s, raw), front + [raw])
    requires m.layers == [] <==> NoneCarriesE(pf, front)
    requires CarriesE(pf, raw) && m.layers == [] ==> TargetOf(pf, s, raw).e > s.e
    ensures m'.layers == [] <==> NoneCarriesE(pf, front + [raw])
  {
    hide SameTool, LineStart, ScanLine, CarriesE, TargetOf, NoneCarriesE, BeginsAt;
    NoneCarriesESnoc(pf, front, raw);
    if m.layers == [] {
      FirstLayer(pf, s, raw);
    } else {
      LineAddsOffset(pf, s, raw);
    }
  }

  lemma MoveNeedsE(pf: ParseFloat, s: Scan, raw: string)
    ensures IsMove(raw) && TargetOf(pf, s, raw).hasE <==> CarriesE(pf, raw)
  {
    HasEIsLexical(pf, s, START, Tail(Parts(raw)));
  }

  lemma {:induction false} RunTogether(cfg: Viewer.Config, lines: seq<string>)
    requires AllReadAlike(cfg, lines) && FirstEMoveExtrudes(cfg.parseFloat, lines)
    ensures Together(Viewed(cfg, lines), ScanLines(cfg.parseFloat, lines), lines)
    ensures Viewed(cfg, lines).layers == [] <==> NoneCarriesE(cfg.parseFloat, lines)
  {
    hide IsReadAlike, Viewer.ProcessLine, ScanLine, CarriesE, TargetOf, NoneCarriesE, IsMove, Together;
    var pf := cfg.parseFloat;
    if lines == [] {
      NothingTogether();
      assert NoneCarriesE(pf, lines) by {
        NoneCarriesENil(pf);
      }
    } else {
      var front, raw := lines[..|lines| - 1], lines[|lines| - 1];
      FirstEMovePrefix(pf, lines, |front|);
      assert forall line | line in front :: line in lines;
      RunTogether(cfg, front);
      ViewedSnoc(cfg, lines);
      var m, s := Viewed(cfg, front), ScanLines(pf, front);
      MoveNeedsE(pf, s, raw);
      assert lines == front + [raw];
      LineTogether(cfg, m, s, front, raw);
      LayersBeginWithE(pf, m, s, front, Viewed(cfg, lines), raw);
    }
  }

  lemma NoneCarriesENil(pf: ParseFloat)
    ensures NoneCarriesE(pf, [])
  {}

  // ---------------------------------------------------------------- when the first E move does not extrude

  /** The viewer has begun a layer at `bound` that the scan has not seen. */
  ghost predicate Apart(m: Viewer.Machine, s: Scan, bound: nat) {
    && StartsWith(m.layers, bound)
    && bound <= s.byteOffset
    && forall o | o in s.layerOffsets :: o >= bound
  }

  ghost predicate StartsWith(layers: seq<Viewer.Layer>, position: nat) {
    layers != [] && layers[0].filePositions != [] && layers[0].filePositions[0] == position
  }

  lemma SegmentKeepsStart(
    cfg: Viewer.Config, m: Viewer.Machine, p1: Viewer.Position, p2: Viewer.Position, position: nat)
    requires StartsWith(m.layers, position)
    ensures StartsWith(Viewer.AddSegment(cfg, m, p1, p2).layers, position)
  {}

  lemma {:induction false} SegmentsKeepStart(
    cfg: Viewer.Config, m: Viewer.Machine, points: seq<Viewer.Position>, position: nat)
    requires StartsWith(m.layers, position)
    ensures StartsWith(Viewer.AddSegments(cfg, m, points).layers, position)
    decreases |points|
  {
    if |points| >= 2 {
      SegmentKeepsStart(cfg, m, points[0], points[1], position);
      SegmentsKeepStart(cfg, Viewer.AddSegment(cfg, m, points[0], points[1]), points[1..], position);
    }
  }

  lemma CommandKeepsStart(cfg: Viewer.Config, m: Viewer.Machine, command: Viewer.Command, position: nat)
    requires StartsWith(m.layers, position)
    ensures StartsWith(Viewer.Execute(cfg, m, command).layers, position)
  {
    hide Viewer.AddSegment;
    match command
    case Linear(args) =>
      var line := Viewer.Destination(m.state, args);
      SegmentKeepsStart(cfg, Viewer.EnterLayer(m, line), m.state.at, line, position);
    case ArcMove(clockwise, args) =>
      if 'k' !in args && 'r' !in args {
        var arc := Viewer.Arc(
          Viewer.Destination(m.state, args),
          if 'i' in args then args['i'] else ZERO,
          if 'j' in args then args['j'] else ZERO,
          clockwise);
        SegmentsKeepStart(cfg, m, cfg.interpolateArc(m.state.at, arc), position);
      }
    case _ =>
  }

  lemma LineStaysApart(cfg: Viewer.Config, m: Viewer.Machine, s: Scan, raw: string, bound: nat)
    requires Apart(m, s, bound)
    ensures Apart(Viewer.ProcessLine(cfg, m, raw), ScanLine(cfg.parseFloat, s, raw), bound)
  {
    hide Viewer.Decode, Viewer.Execute, ScanLine;
    var read := m.(filePos := m.filePos + |raw| + 1, curColor := Viewer.CommentColor(raw, m.curColor));
    CommandKeepsStart(cfg, read, Viewer.Decode(cfg, raw), bound);
    LineAddsOffset(cfg.parseFloat, s, raw);
  }

  lemma {:induction false} RunStaysApart(cfg: Viewer.Config, lines: seq<string>, start: nat, n: nat, bound: nat)
    requires start <= n <= |lines|
    requires Apart(Viewed(cfg, lines[..start]), ScanLines(cfg.parseFloat, lines[..start]), bound)
    ensures Apart(Viewed(cfg, lines[..n]), ScanLines(cfg.parseFloat, lines[..n]), bound)
  {
    hide Apart, ScanLine, Viewer.ProcessLine;
    if start < n {
      RunStaysApart(cfg, lines, start, n - 1, bound);
      assert lines[..n][..n - 1] == lines[..n - 1];
      ViewedSnoc(cfg, lines[..n]);
      LineStaysApart(cfg, Viewed(cfg, lines[..n - 1]), ScanLines(cfg.parseFloat, lines[..n - 1]), lines[n - 1], bound);
    }
  }

  lemma RetractOpensLayer(cfg: Viewer.Config, m: Viewer.Machine, s: Scan, words: seq<string>, args: Viewer.Args)
    requires SameTool(m, s) && m.layers == []
    requires SameCoordinates(args, Coordinates(cfg.parseFloat, words))
    requires var t := MoveTarget(cfg.parseFloat, s, words); t.hasE && t.e <= s.e
    ensures StartsWith(Viewer.Execute(cfg, m, Viewer.Linear(args)).layers, m.filePos)
  {
    hide SameCoordinates, Coordinates, MoveTarget;
    SameTarget(cfg.parseFloat, s, words, args);
    var line := Viewer.Destination(m.state, args);
    assert Viewer.EnterLayer(m, line) == m;
    var ready := Viewer.NewLayer(m, m.state.at.z);
    PushGrows(cfg, ready, m.state.at, line);
    assert Viewer.AddSegment(cfg, m, m.state.at, line) == Viewer.AddSegment(cfg, ready, m.state.at, line);
  }

  lemma FirstRetractSetsApart(cfg: Viewer.Config, m: Viewer.Machine, s: Scan, front: seq<string>, raw: string)
    requires Together(m, s, front) && m.layers == [] && IsReadAlike(cfg, raw)
    requires CarriesE(cfg.parseFloat, raw) && TargetOf(cfg.parseFloat, s, raw).e <= s.e
    ensures var bound := LineStart(front, |front|) + |raw| + 1;
            Apart(Viewer.ProcessLine(cfg, m, raw), ScanLine(cfg.parseFloat, s, raw), bound)
  {
    hide KindOf, Parts, Viewer.Decode, Viewer.Execute, MoveTarget, Viewer.CommentColor, LineStart, SameCoordinates,
      Coordinates;
    var read := m.(filePos := m.filePos + |raw| + 1, curColor := Viewer.CommentColor(raw, m.curColor));
    MoveNeedsE(cfg.parseFloat, s, raw);
    RetractOpensLayer(cfg, read, s, Tail(Parts(raw)), Viewer.Decode(cfg, raw).args);
  }

  lemma ApartDisagrees(m: Viewer.Machine, s: Scan, lines: seq<string>, bound: nat)
    requires Apart(m, s, bound)
    ensures !SameLayers(m.layers, s.layerOffsets, lines)
  {
    if |m.layers| == |s.layerOffsets| {
      var o := s.layerOffsets[0];
      assert o in s.layerOffsets;
      assert !BeginsAt(m.layers[0], lines, o);
    }
  }

  lemma NothingToExtrude(pf: ParseFloat, lines: seq<string>)
    requires NoneCarriesE(pf, lines)
    ensures FirstEMoveExtrudes(pf, lines)
  {
    hide CarriesE, Extrudes;
    assert forall j | 0 <= j < |lines| :: lines[j] in lines;
  }

  lemma RunApart(cfg: Viewer.Config, lines: seq<string>)
    requires AllReadAlike(cfg, lines) && !FirstEMoveExtrudes(cfg.parseFloat, lines)
    ensures !SameLayers(Viewed(cfg, lines).layers, ScanLines(cfg.parseFloat, lines).layerOffsets, lines)
  {
    hide IsReadAlike, Viewer.ProcessLine, ScanLine, CarriesE, TargetOf, LineStart, SameLayers, Apart, Together;
    var pf := cfg.parseFloat;
    var i :| 0 <= i < |lines| && CarriesE(pf, lines[i]) && NoneCarriesE(pf, lines[..i])
             && !Extrudes(pf, lines[..i], lines[i]);
    var front, next := lines[..i], lines[..i + 1];
    NothingToExtrude(pf, front);
    assert forall line | line in front :: line in lines;
    RunTogether(cfg, front);
    assert next[..i] == front && next[i] == lines[i];
    ViewedSnoc(cfg, next);
    var bound := LineStart(front, |front|) + |lines[i]| + 1;
    FirstRetractSetsApart(cfg, Viewed(cfg, front), ScanLines(pf, front), front, lines[i]);
    RunStaysApart(cfg, lines, i + 1, |lines|, bound);
    assert lines[..|lines|] == lines;
    ApartDisagrees(Viewed(cfg, lines), ScanLines(pf, lines), lines, bound);
  }

  // ---------------------------------------------------------------- the two detectors

  lemma FeedReadsCompleteLines(cfg: Viewer.Config, text: string)
    ensures var lines := Split(text, '\n');
            Viewer.Feed(cfg, Viewer.INITIAL, text)
            == Viewed(cfg, lines[..|lines| - 1]).(previousPiece := lines[|lines| - 1])
  {
    hide Viewer.ProcessLine;
    var lines := Split(text, '\n');
    assert Glue([""], lines) == lines by {
      assert "" + lines[0] == lines[0];
    }
    ChunkedParsing.ProcessLinesIgnorePiece(cfg, Viewer.INITIAL, lines[..|lines| - 1], lines[|lines| - 1]);
  }

  lemma BlankLineAddsNothing(cfg: Viewer.Config, m: Viewer.Machine)
    ensures Viewer.ProcessLine(cfg, m, "").layers == m.layers
  {
    assert Split("", ' ') == [""];
    assert Viewer.Decode(cfg, "") == Viewer.Other;
  }

  lemma {:induction false} LastPieceEmpty(text: string)
    requires text == "" || text[|text| - 1] == '\n'
    ensures var lines := Split(text, '\n'); lines[|lines| - 1] == ""
  {
    if |text| > 1 {
      LastPieceEmpty(text[1..]);
    } else if |text| == 1 {
      assert Split(text[1..], '\n') == [""];
    }
  }

  lemma LinesAgree(cfg: Viewer.Config, lines: seq<string>)
    requires AllReadAlike(cfg, lines) && lines != [] && lines[|lines| - 1] == ""
    ensures SameLayers(Viewed(cfg, lines[..|lines| - 1]).layers, ScanLines(cfg.parseFloat, lines).layerOffsets, lines)
            <==> FirstEMoveExtrudes(cfg.parseFloat, lines)
  {
    hide Viewer.ProcessLine, ScanLine, SameLayers, SameTool, SameHeight, LineStart, FirstEMoveExtrudes, Viewed,
      AllReadAlike, ScanLines;
    ViewedSnoc(cfg, lines);
    BlankLineAddsNothing(cfg, Viewed(cfg, lines[..|lines| - 1]));
    if FirstEMoveExtrudes(cfg.parseFloat, lines) {
      RunTogether(cfg, lines);
    } else {
      RunApart(cfg, lines);
    }
  }

  lemma MapKeepsOffsets(pf: ParseFloat, text: string)
    ensures LayerMapOf(pf, text).layerOffsets == ScanLines(pf, Split(text, '\n')).layerOffsets
  {}

  /**
   On a text of complete lines read alike the viewer and the layer map find the same number of layers,
   each first recorded position being the end of the line its offset starts, if and only if the first
   move with an E word raises E.
   */
  lemma DetectorsAgree(cfg: Viewer.Config, text: string)
    requires AllReadAlike(cfg, Split(text, '\n'))
    requires text == "" || text[|text| - 1] == '\n'
    ensures var lines := Split(text, '\n');
            SameLayers(Viewer.Feed(cfg, Viewer.INITIAL, text).layers,
                       LayerMapOf(cfg.parseFloat, text).layerOffsets, lines)
            <==> FirstEMoveExtrudes(cfg.parseFloat, lines)
  {
    hide SameLayers, FirstEMoveExtrudes, Viewer.Feed, Viewed, ScanLines, AllReadAlike, Split, LayerMapOf;
    FeedReadsCompleteLines(cfg, text);
    MapKeepsOffsets(cfg.parseFloat, text);
    LastPieceEmpty(text);
    LinesAgree(cfg, Split(text, '\n'));
  }

  // ---------------------------------------------------------------- the tool

  lemma CommandSameTool(
    cfg: Viewer.Config, m: Viewer.Machine, s: Scan, kind: Kind, words: seq<string>, command: Viewer.Command)
    requires SameTool(m, s) && !kind.Relative? && !kind.RelativeE?
    requires match kind
             case MoveLine => command.Linear? && SameCoordinates(command.args, Coordinates(cfg.parseFloat, words))
             case Reset => command.SetPosition? && SameCoordinates(command.args, Coordinates(cfg.parseFloat, words))
             case _ => command.Other? || command.AbsoluteMode?
    ensures SameTool(Viewer.Execute(cfg, m, command), Interpret(cfg.parseFloat, s, kind, words))
  {
    hide SameCoordinates, Coordinates, Viewer.AddSegment, Viewer.EnterLayer, MoveTarget;
    if kind.MoveLine? {
      SameTarget(cfg.parseFloat, s, words, command.args);
    } else if kind.Reset? {
      SameReset(cfg.parseFloat, s, words, command.args);
      ResetKeepsRecord(cfg.parseFloat, s, words);
    }
  }

  lemma {:induction false} LinesSameTool(cfg: Viewer.Config, lines: seq<string>)
    requires AllReadAlike(cfg, lines)
    ensures SameTool(Viewed(cfg, lines), ScanLines(cfg.parseFloat, lines))
  {
    if lines != [] {
      var front, raw := lines[..|lines| - 1], lines[|lines| - 1];
      assert forall line | line in front :: line in lines;
      LinesSameTool(cfg, front);
      ViewedSnoc(cfg, lines);
      LineSameTool(cfg, Viewed(cfg, front), ScanLines(cfg.parseFloat, front), raw);
      hide IsReadAlike, Viewer.ProcessLine, ScanLine, SameTool;
    }
  }

  lemma LineSameTool(cfg: Viewer.Config, m: Viewer.Machine, s: Scan, raw: string)
    requires SameTool(m, s) && IsReadAlike(cfg, raw)
    ensures SameTool(Viewer.ProcessLine(cfg, m, raw), ScanLine(cfg.parseFloat, s, raw))
  {
    hide KindOf, Parts, Viewer.Decode, Viewer.Execute, Interpret, Viewer.CommentColor, SameCoordinates, Coordinates;
    var read := m.(filePos := m.filePos + |raw| + 1, curColor := Viewer.CommentColor(raw, m.curColor));
    CommandSameTool(cfg, read, s, KindOf(Parts(raw)), Tail(Parts(raw)), Viewer.Decode(cfg, raw));
  }

  /** Whatever the layers, both readers end every such text with the tool at the same place. */
  lemma ToolsAgree(cfg: Viewer.Config, text: string)
    requires AllReadAlike(cfg, Split(text, '\n'))
    requires text == "" || text[|text| - 1] == '\n'
    ensures SameTool(Viewer.Feed(cfg, Viewer.INITIAL, text), ScanLines(cfg.parseFloat, Split(text, '\n')))
  {
    hide IsReadAlike, Viewer.Feed, Viewed, ScanLines, Split;
    var lines := Split(text, '\n');
    var front := lines[..|lines| - 1];
    FeedReadsCompleteLines(cfg, text);
    LastPieceEmpty(text);
    assert AllReadAlike(cfg, front) by {
      assert forall line | line in front :: line in lines;
    }
    hide AllReadAlike;
    LinesSameTool(cfg, front);
    BlankLineMovesNothing(cfg.parseFloat, lines);
  }

  lemma BlankLineMovesNothing(pf: ParseFloat, lines: seq<string>)
    requires lines != [] && lines[|lines| - 1] == ""
    ensures var s := ScanLines(pf, lines[..|lines| - 1]);
            ScanLines(pf, lines) == s.(byteOffset := s.byteOffset + 1)
  {
    assert Parts("") == [];
  }
}
