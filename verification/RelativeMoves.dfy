/**
 G91 under the two readers of G-code. The layer map stays relative until G90; the viewer builds a new
 head at every move and forgets that it was relative. On lines that both take for the same moves and
 resets, whatever modes are set between them, the tools stay together exactly as long as no move
 carries a coordinate that one reader adds and the other does not, unless it starts from zero.
 */
module RelativeMoves {
  import opened JsNumber
  import opened Text
  import Viewer = GcodeViewer
  import opened LayerMap
  import opened LayerAgreement
  import opened LayerInputs

  // ---------------------------------------------------------------- the modes in force

  /** Both readers take the line for the same move or the same reset, or for neither. */
  predicate MovesAlike(cfg: Viewer.Config, line: string) {
    var parts, command := Parts(line), Viewer.Decode(cfg, line);
    match KindOf(parts)
    case MoveLine => command.Linear? && SameCoordinates(command.args, Coordinates(cfg.parseFloat, Tail(parts)))
    case Reset => command.SetPosition? && SameCoordinates(command.args, Coordinates(cfg.parseFloat, Tail(parts)))
    case _ => command.Other? || command.AbsoluteMode? || command.RelativeMode?
  }

  /** Plain lines are, the ones that set a mode among them. */
  lemma PlainMovesAlike(cfg: Viewer.Config, line: string)
    requires IsPlain(cfg.parseFloat, line)
    ensures MovesAlike(cfg, line)
    ensures KindOf(Parts(line)).Absolute? <==> Viewer.Decode(cfg, line).AbsoluteMode?
    ensures KindOf(Parts(line)).Relative? <==> Viewer.Decode(cfg, line).RelativeMode?
  {
    SameWords(cfg, line);
    PlainParts(cfg.parseFloat, line);
    if KindOf(Parts(line)).MoveLine? || KindOf(Parts(line)).Reset? {
      ParsedArguments(cfg, Tail(Parts(line)));
    }
    hide KindOf, Parts, Viewer.Decode, Viewer.ArgsOf, IsPlain, SameCoordinates, Coordinates;
  }

  ghost predicate AllMoveAlike(cfg: Viewer.Config, lines: seq<string>) {
    forall line | line in lines :: MovesAlike(cfg, line)
  }

  /** Whether the viewer adds after a command: a move ends G91 just as G90 does. */
  predicate AddsAfter(command: Viewer.Command, adds: bool) {
    match command
    case RelativeMode => true
    case AbsoluteMode => false
    case Linear(_) => false
    case ArcMove(_, _) => false
    case _ => adds
  }

  predicate ViewerAdds(cfg: Viewer.Config, lines: seq<string>) {
    if lines == [] then false
    else AddsAfter(Viewer.Decode(cfg, lines[|lines| - 1]), ViewerAdds(cfg, lines[..|lines| - 1]))
  }

  /** Whether the map adds X, Y and Z, and whether it adds E. */
  datatype Modes = Modes(adds: bool, addsE: bool)

  function ModesAfter(kind: Kind, modes: Modes): Modes {
    match kind
    case Absolute => Modes(false, false)
    case Relative => Modes(true, true)
    case AbsoluteE => modes.(addsE := false)
    case RelativeE => modes.(addsE := true)
    case _ => modes
  }

  function MapModes(lines: seq<string>): Modes {
    if lines == [] then Modes(false, false)
    else ModesAfter(KindOf(Parts(lines[|lines| - 1])), MapModes(lines[..|lines| - 1]))
  }

  function At(s: Scan, key: char): real {
    if key == 'x' then s.x else if key == 'y' then s.y else if key == 'z' then s.z else s.e
  }

  /** The coordinate is added by both readers or by neither, or it is added to zero. */
  predicate IsSharedCoordinate(adds: bool, modes: Modes, s: Scan, key: char) {
    adds == (if key == 'e' then modes.addsE else modes.adds) || At(s, key) == 0.0
  }

  predicate IsShared(adds: bool, modes: Modes, s: Scan, read: map<char, real>) {
    && ('x' in read ==> IsSharedCoordinate(adds, modes, s, 'x'))
    && ('y' in read ==> IsSharedCoordinate(adds, modes, s, 'y'))
    && ('z' in read ==> IsSharedCoordinate(adds, modes, s, 'z'))
    && ('e' in read ==> IsSharedCoordinate(adds, modes, s, 'e'))
  }

  /** If line `i` is a move, every coordinate it carries is shared. */
  predicate MoveIsShared(cfg: Viewer.Config, lines: seq<string>, i: nat)
    requires i < |lines|
  {
    var parts := Parts(lines[i]);
    KindOf(parts).MoveLine? ==>
      IsShared(ViewerAdds(cfg, lines[..i]), MapModes(lines[..i]), ScanLines(cfg.parseFloat, lines[..i]),
               Coordinates(cfg.parseFloat, Tail(parts)))
  }

  ghost predicate AllMovesAreShared(cfg: Viewer.Config, lines: seq<string>) {
    forall i | 0 <= i < |lines| :: MoveIsShared(cfg, lines, i)
  }

  // ---------------------------------------------------------------- one line

  /** The viewer's head is at the scan's position, whatever the modes. */
  predicate SamePosition(at: Viewer.Position, s: Scan) {
    at.x == Fin(s.x) && at.y == Fin(s.y) && at.z == Fin(s.z) && at.e == Fin(s.e)
  }

  /** The readers' states have these modes. */
  predicate HaveModes(m: Viewer.Machine, s: Scan, adds: bool, modes: Modes) {
    m.state.relative == adds && s.relative == modes.adds && s.relativeE == modes.addsE
  }

  function ShiftOr(relative: bool, read: map<char, real>, key: char, current: real): real {
    if key in read then Shift(relative, current, read[key]) else current
  }

  predicate IsTarget(s: Scan, t: Target, read: map<char, real>) {
    && t.x == ShiftOr(s.relative, read, 'x', s.x) && t.y == ShiftOr(s.relative, read, 'y', s.y)
    && t.z == ShiftOr(s.relative, read, 'z', s.z) && t.e == ShiftOr(s.relativeE, read, 'e', s.e)
    && (t.hasE <==> 'e' in read)
  }

  lemma {:induction false} TargetShifts(pf: ParseFloat, s: Scan, words: seq<string>)
    ensures IsTarget(s, MoveTarget(pf, s, words), Coordinates(pf, words))
  {
    if words == [] {
      assert IsTarget(s, Target(s.x, s.y, s.z, s.e, false), map[]);
    } else {
      hide IsTarget, MoveWord;
      var front, word := words[..|words| - 1], words[|words| - 1];
      TargetShifts(pf, s, front);
      if word != "" && pf(word[1..]).Fin? {
        WordShifts(pf, s, MoveTarget(pf, s, front), Coordinates(pf, front), word);
      } else {
        WordIsSkipped(pf, s, MoveTarget(pf, s, front), word);
      }
    }
  }

  lemma WordShifts(pf: ParseFloat, s: Scan, t: Target, read: map<char, real>, word: string)
    requires IsTarget(s, t, read) && word != "" && pf(word[1..]).Fin?
    ensures IsTarget(s, MoveWord(pf, s, t, word), read[Lower(word[0]) := pf(word[1..]).value])
  {}

  lemma WordIsSkipped(pf: ParseFloat, s: Scan, t: Target, word: string)
    requires word == "" || pf(word[1..]).NaN?
    ensures MoveWord(pf, s, t, word) == t
  {}

  /** One coordinate of a move from the same place. */
  lemma CoordinateAgrees(
    adds: bool, mapAdds: bool, args: Viewer.Args, read: map<char, real>, key: char, current: real)
    requires SameCoordinate(args, read, key)
    ensures Viewer.Coordinate(adds, args, key, Fin(current)) == Fin(ShiftOr(mapAdds, read, key, current))
            <==> (key in read ==> adds == mapAdds || current == 0.0)
  {}

  /** From the same place a move leads to the same place exactly when its coordinates are shared. */
  lemma MoveAgrees(cfg: Viewer.Config, m: Viewer.Machine, s: Scan, words: seq<string>, args: Viewer.Args)
    requires SamePosition(m.state.at, s) && SameCoordinates(args, Coordinates(cfg.parseFloat, words))
    ensures SamePosition(Viewer.Execute(cfg, m, Viewer.Linear(args)).state.at,
                         TakeMove(s, MoveTarget(cfg.parseFloat, s, words)))
            <==> IsShared(m.state.relative, Modes(s.relative, s.relativeE), s, Coordinates(cfg.parseFloat, words))
  {
    var read := Coordinates(cfg.parseFloat, words);
    TargetShifts(cfg.parseFloat, s, words);
    hide Coordinates, MoveTarget, Viewer.Coordinate, ShiftOr, SameCoordinate, Viewer.AddSegment, Viewer.EnterLayer;
    CoordinateAgrees(m.state.relative, s.relative, args, read, 'x', s.x);
    CoordinateAgrees(m.state.relative, s.relative, args, read, 'y', s.y);
    CoordinateAgrees(m.state.relative, s.relative, args, read, 'z', s.z);
    CoordinateAgrees(m.state.relative, s.relativeE, args, read, 'e', s.e);
  }

  lemma ResetAgrees(cfg: Viewer.Config, m: Viewer.Machine, s: Scan, words: seq<string>, args: Viewer.Args)
    requires SamePosition(m.state.at, s) && SameCoordinates(args, Coordinates(cfg.parseFloat, words))
    ensures SamePosition(Viewer.Execute(cfg, m, Viewer.SetPosition(args)).state.at,
                         ResetTo(cfg.parseFloat, s, words))
  {
    ResetReads(cfg.parseFloat, s, words);
    hide Coordinates, ResetTo;
  }

  lemma CommandSetsMode(cfg: Viewer.Config, m: Viewer.Machine, command: Viewer.Command)
    requires !command.ArcMove?
    ensures Viewer.Execute(cfg, m, command).state.relative == AddsAfter(command, m.state.relative)
  {
    hide Viewer.AddSegment, Viewer.EnterLayer, Viewer.Destination, Viewer.Coordinate;
  }

  lemma KindSetsModes(pf: ParseFloat, s: Scan, kind: Kind, words: seq<string>)
    ensures var after := Interpret(pf, s, kind, words);
            Modes(after.relative, after.relativeE) == ModesAfter(kind, Modes(s.relative, s.relativeE))
  {
    ResetKeepsRecord(pf, s, words);
    hide MoveTarget, ResetTo;
  }

  /** The modes after one more line. */
  lemma LineSetsModes(
    cfg: Viewer.Config, m: Viewer.Machine, s: Scan, raw: string, adds: bool, modes: Modes)
    requires MovesAlike(cfg, raw) && HaveModes(m, s, adds, modes)
    ensures HaveModes(Viewer.ProcessLine(cfg, m, raw), ScanLine(cfg.parseFloat, s, raw),
                      AddsAfter(Viewer.Decode(cfg, raw), adds), ModesAfter(KindOf(Parts(raw)), modes))
  {
    hide KindOf, Parts, Viewer.Decode, Interpret, Viewer.Execute, Viewer.CommentColor, SameCoordinates, Coordinates,
      AddsAfter, ModesAfter;
    var read := m.(filePos := m.filePos + |raw| + 1, curColor := Viewer.CommentColor(raw, m.curColor));
    CommandSetsMode(cfg, read, Viewer.Decode(cfg, raw));
    KindSetsModes(cfg.parseFloat, s, KindOf(Parts(raw)), Tail(Parts(raw)));
  }

  /** From the same place one more line leads to the same place exactly when it is no move or a shared one. */
  lemma LineAgrees(
    cfg: Viewer.Config, m: Viewer.Machine, s: Scan, raw: string, adds: bool, modes: Modes)
    requires SamePosition(m.state.at, s) && HaveModes(m, s, adds, modes) && MovesAlike(cfg, raw)
    ensures SamePosition(Viewer.ProcessLine(cfg, m, raw).state.at, ScanLine(cfg.parseFloat, s, raw))
            <==> (KindOf(Parts(raw)).MoveLine? ==>
                    IsShared(adds, modes, s, Coordinates(cfg.parseFloat, Tail(Parts(raw)))))
  {
    hide KindOf, Parts, Viewer.Decode, Viewer.CommentColor, SameCoordinates, Coordinates, MoveTarget, IsShared,
      TakeMove, ResetTo, Viewer.AddSegment, Viewer.EnterLayer, Viewer.Destination;
    var read := m.(filePos := m.filePos + |raw| + 1, curColor := Viewer.CommentColor(raw, m.curColor));
    var command, words := Viewer.Decode(cfg, raw), Tail(Parts(raw));
    if command.Linear? {
      MoveAgrees(cfg, read, s, words, command.args);
    } else if command.SetPosition? {
      ResetAgrees(cfg, read, s, words, command.args);
    }
  }

  // ---------------------------------------------------------------- whole texts

  lemma {:induction false} RunHasModes(cfg: Viewer.Config, lines: seq<string>)
    requires AllMoveAlike(cfg, lines)
    ensures HaveModes(Viewed(cfg, lines), ScanLines(cfg.parseFloat, lines), ViewerAdds(cfg, lines), MapModes(lines))
  {
    if lines != [] {
      hide MovesAlike, Viewer.ProcessLine, ScanLine, HaveModes, AddsAfter, ModesAfter, Viewed, Parts, KindOf,
        Viewer.Decode;
      var front := lines[..|lines| - 1];
      assert forall line | line in front :: line in lines;
      RunHasModes(cfg, front);
      ViewedSnoc(cfg, lines);
      LineSetsModes(cfg, Viewed(cfg, front), ScanLines(cfg.parseFloat, front), lines[|lines| - 1],
                    ViewerAdds(cfg, front), MapModes(front));
    }
  }

  /** Both tools are at the same place after the first `n` lines. */
  ghost predicate AgreeAfter(cfg: Viewer.Config, lines: seq<string>, n: nat)
    requires n <= |lines|
  {
    SamePosition(Viewed(cfg, lines[..n]).state.at, ScanLines(cfg.parseFloat, lines[..n]))
  }

  lemma StepAgrees(cfg: Viewer.Config, lines: seq<string>, i: nat)
    requires AllMoveAlike(cfg, lines) && i < |lines| && AgreeAfter(cfg, lines, i)
    ensures AgreeAfter(cfg, lines, i + 1) <==> MoveIsShared(cfg, lines, i)
  {
    hide MovesAlike, Viewer.ProcessLine, ScanLine, HaveModes, ViewerAdds, MapModes, Viewed, SamePosition, IsShared,
      Coordinates, KindOf, Parts;
    var front, next := lines[..i], lines[..i + 1];
    assert next[..i] == front && next[i] == lines[i] && lines[i] in lines;
    assert forall line | line in front :: line in lines;
    RunHasModes(cfg, front);
    ViewedSnoc(cfg, next);
    LineAgrees(cfg, Viewed(cfg, front), ScanLines(cfg.parseFloat, front), lines[i],
               ViewerAdds(cfg, front), MapModes(front));
  }

  lemma {:induction false} AgreeSoFar(cfg: Viewer.Config, lines: seq<string>, n: nat)
    requires AllMoveAlike(cfg, lines) && n <= |lines|
    requires forall i | 0 <= i < n :: MoveIsShared(cfg, lines, i)
    ensures AgreeAfter(cfg, lines, n)
  {
    if n > 0 {
      hide AllMoveAlike, MoveIsShared, AgreeAfter;
      AgreeSoFar(cfg, lines, n - 1);
      StepAgrees(cfg, lines, n - 1);
    } else {
      assert lines[..0] == [];
    }
  }

  /**
   Whatever modes the lines set: both readers have the tool at the same place after every line if and
   only if every coordinate of every move is added by both or by neither, or added to zero.
   */
  lemma ToolsAgreeExactly(cfg: Viewer.Config, lines: seq<string>)
    requires AllMoveAlike(cfg, lines)
    ensures (forall n | 0 <= n <= |lines| :: AgreeAfter(cfg, lines, n)) <==> AllMovesAreShared(cfg, lines)
  {
    hide AllMoveAlike, MoveIsShared, AgreeAfter;
    if AllMovesAreShared(cfg, lines) {
      forall n | 0 <= n <= |lines| ensures AgreeAfter(cfg, lines, n) {
        AgreeSoFar(cfg, lines, n);
      }
    }
    if forall n | 0 <= n <= |lines| :: AgreeAfter(cfg, lines, n) {
      forall i | 0 <= i < |lines| ensures MoveIsShared(cfg, lines, i) {
        assert AgreeAfter(cfg, lines, i) && AgreeAfter(cfg, lines, i + 1);
        StepAgrees(cfg, lines, i);
      }
    }
  }

  // ---------------------------------------------------------------- when the modes differ

  /** A line that both readers take for the same change of mode, and not for one of E alone. */
  predicate SetsModesAlike(cfg: Viewer.Config, line: string) {
    var kind, command := KindOf(Parts(line)), Viewer.Decode(cfg, line);
    && MovesAlike(cfg, line) && !kind.AbsoluteE? && !kind.RelativeE?
    && (kind.Absolute? <==> command.AbsoluteMode?) && (kind.Relative? <==> command.RelativeMode?)
  }

  predicate IsMode(line: string) {
    var kind := KindOf(Parts(line));
    kind.Absolute? || kind.Relative?
  }

  /** Line `r` is G91 and no later line sets a mode. */
  predicate IsLastRelative(lines: seq<string>, r: nat)
    requires r < |lines|
  {
    KindOf(Parts(lines[r])).Relative? && forall k | r < k < |lines| :: !IsMode(lines[k])
  }

  /** A move has used up the last G91. */
  ghost predicate IsUsedUp(lines: seq<string>) {
    exists r, a | 0 <= r < a < |lines| :: IsLastRelative(lines, r) && KindOf(Parts(lines[a])).MoveLine?
  }

  ghost predicate InRelative(lines: seq<string>) {
    exists r | 0 <= r < |lines| :: IsLastRelative(lines, r)
  }

  lemma InRelativeSnoc(front: seq<string>, raw: string)
    ensures InRelative(front + [raw]) <==> KindOf(Parts(raw)).Relative? || (!IsMode(raw) && InRelative(front))
  {
    hide KindOf, Parts;
    var all := front + [raw];
    assert all[|front|] == raw && forall k | 0 <= k < |front| :: all[k] == front[k];
    if KindOf(Parts(raw)).Relative? {
      assert IsLastRelative(all, |front|);
    } else if !IsMode(raw) && InRelative(front) {
      var r :| 0 <= r < |front| && IsLastRelative(front, r);
      assert IsLastRelative(all, r);
    }
    if r :| 0 <= r < |all| && IsLastRelative(all, r) {
      assert r < |front| ==> IsLastRelative(front, r);
    }
  }

  lemma IsUsedUpSnoc(front: seq<string>, raw: string)
    ensures IsUsedUp(front + [raw])
            <==> !IsMode(raw) && (IsUsedUp(front) || (InRelative(front) && KindOf(Parts(raw)).MoveLine?))
  {
    hide KindOf, Parts;
    var all := front + [raw];
    assert all[|front|] == raw && forall k | 0 <= k < |front| :: all[k] == front[k];
    if !IsMode(raw) && IsUsedUp(front) {
      var r, a :| 0 <= r < a < |front| && IsLastRelative(front, r) && KindOf(Parts(front[a])).MoveLine?;
      assert IsLastRelative(all, r) && KindOf(Parts(all[a])).MoveLine?;
    } else if !IsMode(raw) && InRelative(front) && KindOf(Parts(raw)).MoveLine? {
      var r :| 0 <= r < |front| && IsLastRelative(front, r);
      assert IsLastRelative(all, r) && KindOf(Parts(all[|front|])).MoveLine?;
    }
    if r, a :| 0 <= r < a < |all| && IsLastRelative(all, r) && KindOf(Parts(all[a])).MoveLine? {
      assert IsLastRelative(front, r);
      assert a < |front| ==> KindOf(Parts(front[a])).MoveLine?;
    }
  }

  /** The map adds after the last G91; the viewer does until a move has used it up. */
  lemma {:induction false} ModesOfText(cfg: Viewer.Config, lines: seq<string>)
    requires forall line | line in lines :: SetsModesAlike(cfg, line)
    ensures MapModes(lines) == Modes(InRelative(lines), InRelative(lines))
    ensures ViewerAdds(cfg, lines) <==> InRelative(lines) && !IsUsedUp(lines)
  {
    if lines != [] {
      var front, raw := lines[..|lines| - 1], lines[|lines| - 1];
      assert lines == front + [raw] && raw in lines && forall line | line in front :: line in lines;
      hide InRelative, IsUsedUp, KindOf, Parts, Viewer.Decode, SameCoordinates, Coordinates;
      ModesOfText(cfg, front);
      InRelativeSnoc(front, raw);
      IsUsedUpSnoc(front, raw);
      assert MapModes(lines) == ModesAfter(KindOf(Parts(raw)), MapModes(front));
      assert ViewerAdds(cfg, lines) == AddsAfter(Viewer.Decode(cfg, raw), ViewerAdds(cfg, front));
    } else {
      assert !InRelative(lines) && !IsUsedUp(lines);
    }
  }

  /** No move comes when another one has used up the last G91: at most one move between G91 and the next mode. */
  ghost predicate OneMoveEach(lines: seq<string>) {
    forall i | 0 <= i < |lines| && KindOf(Parts(lines[i])).MoveLine? :: !IsUsedUp(lines[..i])
  }

  /** With at most one move after each G91 both tools stay together. */
  lemma OneMoveEachAgrees(cfg: Viewer.Config, lines: seq<string>, n: nat)
    requires (forall line | line in lines :: SetsModesAlike(cfg, line)) && OneMoveEach(lines) && n <= |lines|
    ensures AgreeAfter(cfg, lines, n)
  {
    hide KindOf, Parts, MovesAlike, IsUsedUp, InRelative, AgreeAfter, Coordinates;
    forall i | 0 <= i < |lines| ensures MoveIsShared(cfg, lines, i) {
      assert forall line | line in lines[..i] :: line in lines;
      ModesOfText(cfg, lines[..i]);
    }
    ToolsAgreeExactly(cfg, lines);
  }

  // ---------------------------------------------------------------- layers under G91

  /**
   The viewer compares the new E with zero instead of the old one while it is relative. At a move that both
   add, to another height than that of the layer, the two open a layer or neither does exactly when the new
   E is positive just when the move carries E and raises it.
   */
  lemma RelativeMoveOpensAlike(cfg: Viewer.Config, m: Viewer.Machine, s: Scan, words: seq<string>, args: Viewer.Args)
    requires SamePosition(m.state.at, s) && HaveModes(m, s, true, Modes(true, true))
    requires SameCoordinates(args, Coordinates(cfg.parseFloat, words)) && SameHeight(m.layers, s.currentLayerZ)
    ensures var t := MoveTarget(cfg.parseFloat, s, words);
            (|Viewer.EnterLayer(m, Viewer.Destination(m.state, args)).layers| > |m.layers| <==> BeginsLayer(s, t))
            <==> s.currentLayerZ == LayerAt(t.z) || (t.e > 0.0 <==> t.hasE && t.e > s.e)
  {
    TargetShifts(cfg.parseFloat, s, words);
    hide Coordinates, MoveTarget;
  }

  // ---------------------------------------------------------------- two moves after G91

  lemma RelativeLine(cfg: Viewer.Config)
    ensures KindOf(Parts("G91")).Relative? && Viewer.Decode(cfg, "G91").RelativeMode?
  {
    assert UpperAll("G91") == "G91" && IsWord("G91");
    hide Parts, Viewer.Decode, Viewer.ArgsOf, UpperAll;
    LineOfOneWord(cfg, "G91");
  }

  lemma LineOfOneWord(cfg: Viewer.Config, word: string)
    requires IsWord(word) && ';' !in word
    ensures Parts(word) == [word] && Viewer.Decode(cfg, word) == Viewer.CommandOf(UpperAll(word), map[])
  {
    hide Words, Split, Viewer.CommandOf, UpperAll, StripComment, Viewer.StripComments;
    NoComment(word);
    OneWord(word);
    SplitClean(word, ' ');
  }

  lemma UnitMove(cfg: Viewer.Config)
    requires cfg.parseFloat("1") == Fin(1.0)
    ensures var parts := Parts("G1 X1");
            && KindOf(parts).MoveLine? && Coordinates(cfg.parseFloat, Tail(parts)) == map['x' := 1.0]
            && MovesAlike(cfg, "G1 X1")
  {
    assert "G1 X1" == "G1" + " " + "X1" && "X1"[1..] == "1" && UpperAll("G1") == "G1" && Lower('X') == 'x';
    assert IsWord("G1") && IsWord("X1");
    hide *;
    MoveOfOneWord(cfg, "G1", "X1", 1.0);
  }

  lemma MoveOfOneWord(cfg: Viewer.Config, g: string, word: string, v: real)
    requires IsWord(g) && IsWord(word) && ';' !in g + " " + word
    requires UpperAll(g) == "G1" && cfg.parseFloat(word[1..]) == Fin(v)
    ensures var line := g + " " + word;
            && KindOf(Parts(line)).MoveLine? && MovesAlike(cfg, line)
            && Coordinates(cfg.parseFloat, Tail(Parts(line))) == map[Lower(word[0]) := v]
  {
    hide Words, Parts, IsPlain, UpperAll, Lower, Viewer.Decode, SameCoordinates;
    MoveIsPlain(cfg.parseFloat, g, word);
    PlainMovesAlike(cfg, g + " " + word);
    TwoWords(g, word);
    OneArgument(cfg.parseFloat, g, word);
    assert [word][..0] == [];
  }

  lemma UnitMoveLeads(cfg: Viewer.Config, m: Viewer.Machine, s: Scan)
    requires cfg.parseFloat("1") == Fin(1.0)
    ensures Viewer.ProcessLine(cfg, m, "G1 X1").state.at.x
            == if m.state.relative then Plus(m.state.at.x, Fin(1.0)) else Fin(1.0)
    ensures !Viewer.ProcessLine(cfg, m, "G1 X1").state.relative
    ensures ScanLine(cfg.parseFloat, s, "G1 X1").x == Shift(s.relative, s.x, 1.0)
    ensures ScanLine(cfg.parseFloat, s, "G1 X1").relative == s.relative
  {
    UnitMove(cfg);
    hide KindOf, Parts, Viewer.Decode, Viewer.CommentColor, Coordinates, MoveTarget, Viewer.AddSegment,
      Viewer.EnterLayer;
    TargetShifts(cfg.parseFloat, s, Tail(Parts("G1 X1")));
  }

  lemma RelativeLineLeads(cfg: Viewer.Config, m: Viewer.Machine, s: Scan)
    ensures var m', s' := Viewer.ProcessLine(cfg, m, "G91"), ScanLine(cfg.parseFloat, s, "G91");
            m'.state == m.state.(relative := true) && s'.relative && s'.x == s.x
  {
    RelativeLine(cfg);
    hide KindOf, Parts, Viewer.Decode, Viewer.CommentColor;
  }

  lemma OneAfterAnother(cfg: Viewer.Config, a: string, b: string, c: string)
    ensures var pf, lines := cfg.parseFloat, [a, b, c];
            && lines[..0] == [] && lines[..1] == [a] && lines[..2] == [a, b] && lines[..3] == lines
            && Viewed(cfg, []) == Viewer.INITIAL && ScanLines(pf, []) == START
            && Viewed(cfg, [a]) == Viewer.ProcessLine(cfg, Viewer.INITIAL, a)
            && ScanLines(pf, [a]) == ScanLine(pf, START, a)
            && Viewed(cfg, [a, b]) == Viewer.ProcessLine(cfg, Viewed(cfg, [a]), b)
            && ScanLines(pf, [a, b]) == ScanLine(pf, ScanLines(pf, [a]), b)
            && Viewed(cfg, lines) == Viewer.ProcessLine(cfg, Viewed(cfg, [a, b]), c)
            && ScanLines(pf, lines) == ScanLine(pf, ScanLines(pf, [a, b]), c)
  {
    hide Viewer.ProcessLine, ScanLine;
    assert [a][..0] == [] && [a, b][..1] == [a] && [a, b, c][..2] == [a, b];
    ViewedSnoc(cfg, [a]);
    ViewedSnoc(cfg, [a, b]);
    ViewedSnoc(cfg, [a, b, c]);
  }

  /** The viewer takes the second move after G91 for an absolute one: it is at 1 where the map is at 2. */
  lemma SecondRelativeMoveParts(cfg: Viewer.Config)
    requires cfg.parseFloat("1") == Fin(1.0)
    ensures var lines := ["G91", "G1 X1", "G1 X1"];
            && AllMoveAlike(cfg, lines) && !AgreeAfter(cfg, lines, 3)
            && Viewed(cfg, lines).state.at.x == Fin(1.0) && ScanLines(cfg.parseFloat, lines).x == 2.0
  {
    var pf, lines := cfg.parseFloat, ["G91", "G1 X1", "G1 X1"];
    RelativeLine(cfg);
    UnitMove(cfg);
    OneAfterAnother(cfg, "G91", "G1 X1", "G1 X1");
    RelativeLineLeads(cfg, Viewer.INITIAL, START);
    UnitMoveLeads(cfg, Viewed(cfg, ["G91"]), ScanLines(pf, ["G91"]));
    UnitMoveLeads(cfg, Viewed(cfg, ["G91", "G1 X1"]), ScanLines(pf, ["G91", "G1 X1"]));
    hide Viewer.ProcessLine, ScanLine, Viewed, ScanLines, KindOf, Parts, Viewer.Decode, Coordinates;
    assert MovesAlike(cfg, "G91");
  }
}
