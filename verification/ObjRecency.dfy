/**
 Does every vertex end with the `usemtl` that was the most recent one when it was emitted? Not always:
 an unnamed `usemtl` is not inherited by the next object, whose vertices are then repainted by the next
 name. Attribution holds exactly for the files in which that never happens.
 */
module ObjRecency {
  import opened ObjLoader
  import opened ObjAttribution

  /** The `usemtl` names alone: each vertex is tagged with the latest one, whatever the object. */
  datatype Log = Log(objects: seq<seq<Paint>>, declared: bool, latest: Paint)

  function LogLine(g: Log, line: Line): (r: Log)
    requires g.objects != []
    ensures r.objects != []
  {
    var last := |g.objects| - 1;
    match line
    case UseMtl(name) => g.(latest := Named(name))
    case GroupLine(_) => if !g.declared then g.(declared := true) else g.(objects := g.objects + [[]])
    case _ => g.(objects := g.objects[last := g.objects[last] + Fill(g.latest, VerticesOf(line))])
  }

  function LogLines(lines: seq<Line>): (g: Log)
    ensures g.objects != []
  {
    if lines == [] then Log([[]], false, Bare)
    else LogLine(LogLines(lines[..|lines| - 1]), lines[|lines| - 1])
  }

  /** Every vertex emitted after some `usemtl` is drawn with the name that was latest then. */
  ghost predicate Attributed(lines: seq<Line>) {
    var l, g := Parsed(lines), LogLines(lines);
    forall k, v | 0 <= k < |l.objects| && k < |g.objects| && 0 <= v < |l.objects[k].vertices| && v < |g.objects[k]|
                  && g.objects[k][v].Named? ::
      NameAt(l.objects[k].materials, v) == g.objects[k][v].name
  }

  /** The line names a material while the current object has vertices but no material, though one was named before. */
  predicate Repaints(c: Canvas, line: Line)
    requires c.objects != []
  {
    line.UseMtl? && line.name != "" && c.force.Bare? && c.latest.Named? && c.objects[|c.objects| - 1] != []
  }

  ghost predicate NeverRepaints(lines: seq<Line>) {
    forall i | 0 <= i < |lines| :: !Repaints(PaintLines(lines[..i]), lines[i])
  }

  // ---------------------------------------------------------------- paint against log

  ghost predicate Fits(paint: Paint, tag: Paint) {
    tag.Named? ==> PaintName(paint) == tag.name
  }

  ghost predicate AllFit(paints: seq<Paint>, tags: seq<Paint>) {
    |paints| == |tags| && forall v | 0 <= v < |paints| :: Fits(paints[v], tags[v])
  }

  /** The shape the two accounts share in every run. */
  ghost predicate SameShape(c: Canvas, g: Log) {
    var last := |c.objects| - 1;
    && |c.objects| == |g.objects| > 0
    && (forall k | 0 <= k <= last :: |c.objects[k]| == |g.objects[k]|)
    && c.declared == g.declared && c.latest == g.latest
    && (c.force.Named? ==> c.force == c.latest && forall p | p in c.objects[last] :: p.Named?)
    && (c.force.Bare? ==> forall p | p in c.objects[last] :: p == Bare)
    && (c.force.Bare? && c.latest.Named? ==>
          c.latest == Named("") && forall t | t in g.objects[last] :: t == Named(""))
    && (c.latest.Bare? ==> forall t | t in g.objects[last] :: t == Bare)
  }

  lemma LineKeepsShape(c: Canvas, g: Log, line: Line)
    requires SameShape(c, g)
    ensures SameShape(PaintLine(c, line), LogLine(g, line))
  {
    var last := |c.objects| - 1;
    if line.UseMtl? {
      var repainted := Repaint(c.objects[last], line.name);
      assert forall v | 0 <= v < |repainted| :: repainted[v].Named?;
    }
  }

  lemma {:induction false} RunKeepsShape(lines: seq<Line>)
    ensures SameShape(PaintLines(lines), LogLines(lines))
  {
    if lines != [] {
      hide SameShape, PaintLine, LogLine;
      RunKeepsShape(lines[..|lines| - 1]);
      LineKeepsShape(PaintLines(lines[..|lines| - 1]), LogLines(lines[..|lines| - 1]), lines[|lines| - 1]);
    } else {
      assert SameShape(Canvas([[]], false, Bare, Bare), Log([[]], false, Bare));
    }
  }

  ghost predicate EverythingFits(c: Canvas, g: Log) {
    |c.objects| == |g.objects| && forall k | 0 <= k < |c.objects| :: AllFit(c.objects[k], g.objects[k])
  }

  lemma RepaintFits(c: Canvas, g: Log, name: string)
    requires SameShape(c, g) && EverythingFits(c, g) && !Repaints(c, UseMtl(name))
    ensures AllFit(Repaint(c.objects[|c.objects| - 1], name), g.objects[|c.objects| - 1])
  {
    var last := |c.objects| - 1;
    var paints, tags := c.objects[last], g.objects[last];
    assert AllFit(paints, tags);
    forall v | 0 <= v < |paints| ensures Fits(Repaint(paints, name)[v], tags[v]) {
      assert paints[v] in paints && tags[v] in tags;
      assert Fits(paints[v], tags[v]);
    }
  }

  lemma LineKeepsFit(c: Canvas, g: Log, line: Line)
    requires SameShape(c, g) && EverythingFits(c, g) && !Repaints(c, line)
    ensures EverythingFits(PaintLine(c, line), LogLine(g, line))
  {
    var last := |c.objects| - 1;
    assert AllFit(c.objects[last], g.objects[last]);
    if line.UseMtl? {
      RepaintFits(c, g, line.name);
    }
  }

  lemma {:induction false} RunKeepsFit(lines: seq<Line>)
    requires NeverRepaints(lines)
    ensures EverythingFits(PaintLines(lines), LogLines(lines))
  {
    if lines == [] {
      assert AllFit([], []);
    } else {
      hide PaintLine, LogLine, EverythingFits, SameShape, Repaints;
      var front, line := lines[..|lines| - 1], lines[|lines| - 1];
      forall i | 0 <= i < |front| ensures !Repaints(PaintLines(front[..i]), front[i]) {
        assert front[..i] == lines[..i] && front[i] == lines[i];
      }
      RunKeepsFit(front);
      RunKeepsShape(front);
      LineKeepsFit(PaintLines(front), LogLines(front), line);
    }
  }

  // ---------------------------------------------------------------- a repainted vertex never fits again

  ghost predicate Misfit(c: Canvas, g: Log, k: nat, v: nat) {
    && k < |c.objects| && k < |g.objects| && v < |c.objects[k]| && v < |g.objects[k]|
    && c.objects[k][v].Named? && g.objects[k][v].Named? && c.objects[k][v] != g.objects[k][v]
  }

  lemma LineKeepsMisfit(c: Canvas, g: Log, line: Line, k: nat, v: nat)
    requires Misfit(c, g, k, v)
    ensures Misfit(PaintLine(c, line), LogLine(g, line), k, v)
  {}

  lemma LastLine(lines: seq<Line>)
    requires lines != []
    ensures var front, line := lines[..|lines| - 1], lines[|lines| - 1];
            && PaintLines(lines) == PaintLine(PaintLines(front), line)
            && LogLines(lines) == LogLine(LogLines(front), line)
  {
    hide PaintLine, LogLine;
  }

  lemma {:induction false} RunKeepsMisfit(lines: seq<Line>, rest: seq<Line>, k: nat, v: nat)
    requires Misfit(PaintLines(lines), LogLines(lines), k, v)
    ensures Misfit(PaintLines(lines + rest), LogLines(lines + rest), k, v)
    decreases |rest|
  {
    hide *;
    if rest == [] {
      assert lines + rest == lines;
    } else {
      var all, front, line := lines + rest, lines + rest[..|rest| - 1], rest[|rest| - 1];
      assert all[..|all| - 1] == front && all[|all| - 1] == line;
      LastLine(all);
      RunKeepsMisfit(lines, rest[..|rest| - 1], k, v);
      LineKeepsMisfit(PaintLines(front), LogLines(front), line, k, v);
    }
  }

  lemma RepaintMakesMisfit(c: Canvas, g: Log, line: Line)
    requires SameShape(c, g) && Repaints(c, line)
    ensures Misfit(PaintLine(c, line), LogLine(g, line), |c.objects| - 1, 0)
  {
    var last := |c.objects| - 1;
    assert c.objects[last][0] in c.objects[last] && g.objects[last][0] in g.objects[last];
  }

  // ---------------------------------------------------------------- the exact condition

  lemma FitIsAttribution(lines: seq<Line>)
    ensures EverythingFits(PaintLines(lines), LogLines(lines)) ==> Attributed(lines)
  {
    hide Parsed, PaintLines, LogLines;
    var l, c, g := Parsed(lines), PaintLines(lines), LogLines(lines);
    if EverythingFits(c, g) {
      forall k, v | 0 <= k < |l.objects| && k < |g.objects| && 0 <= v < |l.objects[k].vertices| && v < |g.objects[k]|
                    && g.objects[k][v].Named?
        ensures NameAt(l.objects[k].materials, v) == g.objects[k][v].name
      {
        MaterialAttribution(lines, k, v);
        assert AllFit(c.objects[k], g.objects[k]);
        assert Fits(c.objects[k][v], g.objects[k][v]);
      }
    }
  }

  lemma MisfitIsNoAttribution(lines: seq<Line>, k: nat, v: nat)
    requires Misfit(PaintLines(lines), LogLines(lines), k, v)
    ensures !Attributed(lines)
  {
    hide Parsed, PaintLines, LogLines;
    ParsedIsClosed(lines);
    assert ClosedGroups(Parsed(lines).objects[k], PaintLines(lines).objects[k]);
    MaterialAttribution(lines, k, v);
  }

  /** The first vertex that a line repaints is not drawn with the name that was latest. */
  lemma RepaintedIsNotAttributed(lines: seq<Line>, i: nat)
    requires i < |lines| && Repaints(PaintLines(lines[..i]), lines[i])
    ensures !Attributed(lines)
  {
    hide *;
    var before, rest := lines[..i + 1], lines[i + 1..];
    assert before[..i] == lines[..i] && before + rest == lines;
    var c, g := PaintLines(lines[..i]), LogLines(lines[..i]);
    LastLine(before);
    RunKeepsShape(lines[..i]);
    RepaintMakesMisfit(c, g, lines[i]);
    RunKeepsMisfit(before, rest, |c.objects| - 1, 0);
    MisfitIsNoAttribution(lines, |c.objects| - 1, 0);
  }

  /** Attribution to the most recent name holds if and only if no line repaints. */
  lemma AttributedExactlyWithoutRepaint(lines: seq<Line>)
    ensures Attributed(lines) <==> NeverRepaints(lines)
  {
    hide Attributed, Repaints, PaintLines;
    if NeverRepaints(lines) {
      RunKeepsFit(lines);
      FitIsAttribution(lines);
    } else {
      var i :| 0 <= i < |lines| && Repaints(PaintLines(lines[..i]), lines[i]);
      RepaintedIsNotAttributed(lines, i);
    }
  }

  lemma {:induction false} LatestIsNamed(lines: seq<Line>)
    requires forall line | line in lines && line.UseMtl? :: line.name != ""
    ensures PaintLines(lines).latest != Named("")
  {
    if lines != [] {
      LatestIsNamed(lines[..|lines| - 1]);
    }
  }

  /** In particular it holds for every file whose `usemtl` names are not empty. */
  lemma NamedMaterialsAreAttributed(lines: seq<Line>)
    requires forall line | line in lines && line.UseMtl? :: line.name != ""
    ensures Attributed(lines)
  {
    hide Attributed, PaintLines;
    forall i | 0 <= i < |lines| ensures !Repaints(PaintLines(lines[..i]), lines[i]) {
      LatestIsNamed(lines[..i]);
      RunKeepsShape(lines[..i]);
    }
    AttributedExactlyWithoutRepaint(lines);
  }

  /** An unnamed material is forgotten at the next object, and its vertices take the name after them. */
  lemma UnnamedMaterialIsRepainted()
    ensures !Attributed([GroupLine("a"), UseMtl(""), GroupLine("b"), Points([Num(1)]), UseMtl("c")])
  {
    var lines := [GroupLine("a"), UseMtl(""), GroupLine("b"), Points([Num(1)]), UseMtl("c")];
    hide Attributed, NeverRepaints;
    assert lines[..4][..3] == lines[..3] && lines[..3][..2] == lines[..2] && lines[..2][..1] == lines[..1];
    assert lines[..1][..0] == [];
    assert Repaint([], "") == [];
    assert PaintLines(lines[..1]) == Canvas([[]], true, Bare, Bare);
    assert PaintLines(lines[..2]) == Canvas([[]], true, Named(""), Named(""));
    assert PaintLines(lines[..3]) == Canvas([[], []], true, Bare, Named(""));
    assert |PaintLines(lines[..4]).objects[1]| == 1;
    RepaintIsSeen(lines, 4);
    AttributedExactlyWithoutRepaint(lines);
  }

  lemma RepaintIsSeen(lines: seq<Line>, i: nat)
    requires i < |lines| && Repaints(PaintLines(lines[..i]), lines[i])
    ensures !NeverRepaints(lines)
  {}
}
