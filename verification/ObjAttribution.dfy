/**
 Which material every vertex ends up with. `Canvas` is an independent account of it that knows nothing
 of groups: each vertex is painted with the name in force when it is emitted, and a `usemtl` also
 paints the vertices of the current object that had no material yet.
 */
module ObjAttribution {
  import opened ObjLoader

  datatype Paint = Bare | Named(name: string)

  datatype Canvas = Canvas(objects: seq<seq<Paint>>, declared: bool, force: Paint, latest: Paint)

  function PaintName(p: Paint): string {
    if p.Named? then p.name else ""
  }

  function Fill(p: Paint, n: nat): seq<Paint> {
    seq(n, i => p)
  }

  /** Bare vertices take the first name declared after them. */
  function Repaint(paints: seq<Paint>, name: string): seq<Paint> {
    seq(|paints|, i requires 0 <= i < |paints| => if paints[i].Bare? then Named(name) else paints[i])
  }

  /** The corners of a face make a fan of triangles; other elements emit what they list. */
  function VerticesOf(line: Line): nat {
    match line
    case Face(corners) => if |corners| < 3 then 0 else 3 * (|corners| - 2)
    case LineElement(vertices) => |vertices|
    case Points(vertices) => |vertices|
    case _ => 0
  }

  function PaintLine(c: Canvas, line: Line): (r: Canvas)
    requires c.objects != []
    ensures r.objects != []
  {
    var last := |c.objects| - 1;
    match line
    case UseMtl(name) =>
      c.(objects := c.objects[last := Repaint(c.objects[last], name)], force := Named(name), latest := Named(name))
    case GroupLine(_) =>
      if !c.declared then c.(declared := true)
      else c.(objects := c.objects + [[]], force := if PaintName(c.force) == "" then Bare else c.force)
    case _ =>
      c.(objects := c.objects[last := c.objects[last] + Fill(c.force, VerticesOf(line))])
  }

  function PaintLines(lines: seq<Line>): (c: Canvas)
    ensures c.objects != []
  {
    if lines == [] then Canvas([[]], false, Bare, Bare)
    else PaintLine(PaintLines(lines[..|lines| - 1]), lines[|lines| - 1])
  }

  // ---------------------------------------------------------------- groups

  /** Group `i` is closed, not empty, and ends where the next one starts. */
  ghost predicate Chained(ms: seq<Material>, i: nat)
    requires i < |ms|
  {
    && ms[i].Material?
    && ms[i].groupStart < ms[i].groupEnd
    && ms[i].groupCount == ms[i].groupEnd - ms[i].groupStart
    && (i + 1 < |ms| ==> ms[i + 1].Material? && ms[i + 1].groupStart == ms[i].groupEnd)
  }

  ghost predicate StartsAtZero(ms: seq<Material>) {
    ms != [] && ms[0].Material? && ms[0].groupStart == 0
  }

  /** The groups cover `n` vertices without gap or overlap. */
  ghost predicate Tiles(ms: seq<Material>, n: nat) {
    && StartsAtZero(ms)
    && (forall i | 0 <= i < |ms| :: Chained(ms, i))
    && Chained(ms, |ms| - 1) && ms[|ms| - 1].groupEnd == n
  }

  ghost predicate CoveredBy(m: Material, end: int, paints: seq<Paint>)
    requires m.Material?
  {
    forall v | m.groupStart <= v < end && 0 <= v < |paints| :: paints[v] == Named(m.name)
  }

  /** The first `n` groups are closed, each over its own paint. */
  ghost predicate ClosedBelow(ms: seq<Material>, n: nat, paints: seq<Paint>)
    requires n <= |ms|
  {
    forall i | 0 <= i < n :: Chained(ms, i) && CoveredBy(ms[i], ms[i].groupEnd, paints)
  }

  /** An object still being read: all groups closed but the last, each over its own paint. */
  ghost predicate OpenGroups(o: Obj, paints: seq<Paint>, force: Paint) {
    var n := |o.materials| - 1;
    && |paints| == |o.vertices|
    && if o.materials == [] then force == Bare && forall p | p in paints :: p == Bare
       else
         && StartsAtZero(o.materials)
         && ClosedBelow(o.materials, n, paints)
         && OpenGroup(o.materials[n], n, paints, force)
  }

  ghost predicate OpenGroup(m: Material, index: nat, paints: seq<Paint>, force: Paint) {
    && m.Material? && m.index == index && m.groupEnd == -1 && m.groupCount == -1
    && 0 <= m.groupStart <= |paints|
    && force == Named(m.name)
    && CoveredBy(m, |paints|, paints)
  }

  /** A finished object: one material for everything, or groups that tile it. */
  ghost predicate ClosedGroups(o: Obj, paints: seq<Paint>) {
    && |paints| == |o.vertices|
    && o.materials != []
    && if |o.materials| == 1 then forall p | p in paints :: PaintName(p) == NameOf(o.materials[0])
       else
         && Tiles(o.materials, |o.vertices|)
         && forall i | 0 <= i < |o.materials| ::
              Chained(o.materials, i) && CoveredBy(o.materials[i], o.materials[i].groupEnd, paints)
  }

  // ---------------------------------------------------------------- one line keeps them in step

  lemma RepaintPainted(paints: seq<Paint>, name: string)
    requires forall p | p in paints :: p.Named?
    ensures Repaint(paints, name) == paints
  {
    assert forall i | 0 <= i < |paints| :: paints[i] in paints;
  }

  /** Below the last group every vertex is painted. */
  lemma {:induction false} PaintedBelow(ms: seq<Material>, n: nat, paints: seq<Paint>)
    requires n < |ms| && StartsAtZero(ms)
    requires forall i | 0 <= i < n :: Chained(ms, i) && CoveredBy(ms[i], ms[i].groupEnd, paints)
    requires ms[n].Material? && ms[n].groupStart <= |paints|
    ensures 0 <= ms[n].groupStart
    ensures forall v | 0 <= v < ms[n].groupStart :: paints[v].Named?
  {
    if n > 0 {
      assert Chained(ms, n - 1);
      PaintedBelow(ms, n - 1, paints);
    }
  }

  lemma OpenIsPainted(o: Obj, paints: seq<Paint>, force: Paint)
    requires OpenGroups(o, paints, force) && o.materials != []
    ensures forall p | p in paints :: p.Named?
  {
    var n := |o.materials| - 1;
    PaintedBelow(o.materials, n, paints);
    forall v | 0 <= v < |paints| ensures paints[v].Named? {
      assert v >= o.materials[n].groupStart ==> paints[v] == Named(o.materials[n].name);
    }
  }

  /** An empty last group gives way to the new one. */
  lemma ReplacedGroupTiles(ms: seq<Material>, next: Material, paints: seq<Paint>)
    requires ms != [] && StartsAtZero(ms)
    requires ms[|ms| - 1].Material? && next.Material? && next.groupStart == ms[|ms| - 1].groupStart
    requires ClosedBelow(ms, |ms| - 1, paints)
    ensures var after := ms[..|ms| - 1] + [next];
            StartsAtZero(after) && ClosedBelow(after, |ms| - 1, paints)
  {
    hide CoveredBy;
    var after := ms[..|ms| - 1] + [next];
    forall i | 0 <= i < |ms| - 1 ensures Chained(after, i) && after[i] == ms[i] {
      assert Chained(ms, i);
    }
  }

  /** A last group with vertices is closed before the new one starts. */
  lemma AddedGroupTiles(ms: seq<Material>, closed: Material, next: Material, paints: seq<Paint>)
    requires ms != [] && StartsAtZero(ms) && ms[|ms| - 1].Material? && closed.Material? && next.Material?
    requires closed.groupStart == ms[|ms| - 1].groupStart < closed.groupEnd == next.groupStart
    requires closed.groupCount == closed.groupEnd - closed.groupStart && CoveredBy(closed, closed.groupEnd, paints)
    requires ClosedBelow(ms, |ms| - 1, paints)
    ensures var after := ms[..|ms| - 1] + [closed, next];
            StartsAtZero(after) && ClosedBelow(after, |ms|, paints)
  {
    hide CoveredBy;
    var n := |ms| - 1;
    var after := ms[..n] + [closed, next];
    assert after[n] == closed && after[n + 1] == next;
    forall i | 0 <= i < n ensures Chained(after, i) && after[i] == ms[i] {
      assert Chained(ms, i);
    }
  }

  /** The new group comes after the closed one, or takes its place when that is empty. */
  lemma MaterialsAfterUseMtl(o: Obj, name: string, libraries: seq<string>)
    requires o.materials != []
    requires var m := o.materials[|o.materials| - 1];
             m.Material? && m.index == |o.materials| - 1 && m.groupEnd == -1
    ensures var ms, after := o.materials, WithMaterial(o, name, libraries).materials;
            after != []
            && var closed, next := CloseGroup(ms[|ms| - 1], |o.vertices|), after[|after| - 1];
               && after == ms[..|ms| - 1] + (if closed.groupCount <= 0 then [next] else [closed, next])
               && next.Material? && next.index == |after| - 1 && next.name == name
               && next.groupStart == |o.vertices| && next.groupEnd == -1 && next.groupCount == -1
    ensures WithMaterial(o, name, libraries).vertices == o.vertices
  {
    var ms, n := o.materials, |o.materials| - 1;
    var closed := CloseGroup(ms[n], |o.vertices|);
    assert CloseLast(o).materials == ms[n := closed];
    assert Splice(ms[n := closed], n) == ms[..n];
  }

  lemma ClosedCovers(m: Material, closed: Material, next: Material, paints: seq<Paint>)
    requires m.Material? && m.groupEnd == -1 && CoveredBy(m, |paints|, paints) && closed == CloseGroup(m, |paints|)
    requires next.Material? && next.groupStart == |paints|
    ensures closed.Material? && CoveredBy(closed, closed.groupEnd, paints) && CoveredBy(next, |paints|, paints)
  {}

  lemma FirstMaterialPaintsAll(o: Obj, paints: seq<Paint>, name: string, libraries: seq<string>)
    requires OpenGroups(o, paints, Bare) && o.materials == []
    ensures OpenGroups(WithMaterial(o, name, libraries), Repaint(paints, name), Named(name))
  {
    var after, repainted := WithMaterial(o, name, libraries), Repaint(paints, name);
    assert after.materials[0].groupStart == 0;
    forall v | 0 <= v < |paints| ensures repainted[v] == Named(name) {
      assert paints[v] in paints;
    }
  }

  lemma UseMtlKeepsGroups(o: Obj, paints: seq<Paint>, force: Paint, name: string, libraries: seq<string>)
    requires OpenGroups(o, paints, force)
    ensures OpenGroups(WithMaterial(o, name, libraries), Repaint(paints, name), Named(name))
  {
    if o.materials == [] {
      FirstMaterialPaintsAll(o, paints, name, libraries);
    } else {
      OpenIsPainted(o, paints, force);
      RepaintPainted(paints, name);
      MaterialsAfterUseMtl(o, name, libraries);
      hide ClosedBelow, StartsAtZero, Repaint, CoveredBy, WithMaterial;
      var after := WithMaterial(o, name, libraries);
      var ms, n := o.materials, |o.materials| - 1;
      var closed, next := CloseGroup(ms[n], |o.vertices|), after.materials[|after.materials| - 1];
      ClosedCovers(ms[n], closed, next, paints);
      if closed.groupCount <= 0 {
        ReplacedGroupTiles(ms, next, paints);
      } else {
        AddedGroupTiles(ms, closed, next, paints);
      }
    }
  }

  lemma EmissionKeepsGroups(o: Obj, paints: seq<Paint>, force: Paint, vertices: seq<Vertex>)
    requires OpenGroups(o, paints, force)
    ensures OpenGroups(o.(vertices := o.vertices + vertices), paints + Fill(force, |vertices|), force)
  {
    var after, all := o.(vertices := o.vertices + vertices), paints + Fill(force, |vertices|);
    if o.materials != [] {
      var n := |o.materials| - 1;
      forall i | 0 <= i < n ensures CoveredBy(o.materials[i], o.materials[i].groupEnd, all) {
        assert Chained(o.materials, i);
        EndsInside(o.materials, i, n, |paints|);
      }
    }
  }

  /** A closed group ends no later than the open one starts. */
  lemma {:induction false} EndsInside(ms: seq<Material>, i: nat, n: nat, bound: int)
    requires i < n < |ms| && ms[n].Material? && ms[n].groupStart <= bound
    requires forall k | 0 <= k < n :: Chained(ms, k)
    ensures ms[i].Material? && ms[i].groupEnd <= bound
    decreases n - i
  {
    assert Chained(ms, i);
    if i + 1 < n {
      assert Chained(ms, i + 1);
      EndsInside(ms, i + 1, n, bound);
    }
  }

  lemma SmoothKeepsGroups(o: Obj, paints: seq<Paint>, force: Paint, on: bool)
    requires OpenGroups(o, paints, force)
    ensures OpenGroups(SetSmooth(o, on), paints, force)
  {
    var after := SetSmooth(o, on);
    if o.materials != [] {
      var n := |o.materials| - 1;
      assert after.materials[n] == o.materials[n].(smooth := on);
      forall i | 0 <= i < n
        ensures Chained(after.materials, i) && CoveredBy(after.materials[i], after.materials[i].groupEnd, paints)
      {
        assert Chained(o.materials, i);
      }
    }
  }

  lemma InheritanceKeepsPaint(o: Obj, paints: seq<Paint>, force: Paint, name: string)
    requires OpenGroups(o, paints, force)
    ensures OpenGroups(Obj(name, true, [], Inherited(o), true), [], if PaintName(force) == "" then Bare else force)
  {}

  lemma {:induction false} DropEmptyKeepsFull(ms: seq<Material>)
    requires forall m | m in ms :: !IsEmptyGroup(m)
    ensures DropEmpty(ms) == ms
  {
    hide IsEmptyGroup;
    if ms != [] {
      var front, last := ms[..|ms| - 1], ms[|ms| - 1];
      assert ms == front + [last] && last in ms;
      DropEmptyKeepsFull(front);
    }
  }

  lemma DropEmptyTail(front: seq<Material>, last: Material)
    requires forall m | m in front :: !IsEmptyGroup(m)
    ensures DropEmpty(front + [last]) == if IsEmptyGroup(last) then front else front + [last]
  {
    assert (front + [last])[..|front|] == front;
    DropEmptyKeepsFull(front);
  }

  /** Groups that tile a prefix up to the end of the object make it a finished object. */
  lemma TilesCloseObject(o: Obj, ms: seq<Material>, paints: seq<Paint>)
    requires |paints| == |o.vertices| && o.materials == ms && Tiles(ms, |paints|)
    requires forall i | 0 <= i < |ms| :: Chained(ms, i) && CoveredBy(ms[i], ms[i].groupEnd, paints)
    ensures ClosedGroups(o, paints)
  {
    if |ms| == 1 {
      assert Chained(ms, 0);
      forall p | p in paints ensures PaintName(p) == NameOf(ms[0]) {
        var v :| 0 <= v < |paints| && paints[v] == p;
      }
    }
  }

  lemma FinalizeOne(o: Obj, paints: seq<Paint>, force: Paint)
    requires OpenGroups(o, paints, force) && |o.materials| == 1
    ensures ClosedGroups(FinalizeObject(o), paints)
  {
    forall p | p in paints ensures p == Named(o.materials[0].name) {
      var v :| 0 <= v < |paints| && paints[v] == p;
    }
  }

  /** Closing the last group: the ones before it stay closed, and it ends with the object. */
  lemma ClosingKeepsChain(o: Obj, paints: seq<Paint>, force: Paint, ms: seq<Material>)
    requires OpenGroups(o, paints, force) && |o.materials| > 1 && ms == CloseLast(o).materials
    ensures |ms| == |o.materials| && ms[..|ms| - 1] == o.materials[..|ms| - 1] && StartsAtZero(ms)
    ensures forall i | 0 <= i < |ms| - 1 ::
              Chained(ms, i) && CoveredBy(ms[i], ms[i].groupEnd, paints) && !IsEmptyGroup(ms[i])
    ensures var last := ms[|ms| - 1];
            last.Material? && last.groupEnd == |paints| && CoveredBy(last, last.groupEnd, paints)
            && if IsEmptyGroup(last) then last.groupStart == |paints| else Chained(ms, |ms| - 1)
  {
    forall i | 0 <= i < |ms| - 1
      ensures Chained(ms, i) && CoveredBy(ms[i], ms[i].groupEnd, paints) && !IsEmptyGroup(ms[i])
    {
      assert Chained(o.materials, i);
    }
  }

  lemma FinalizeMany(o: Obj, paints: seq<Paint>, force: Paint)
    requires OpenGroups(o, paints, force) && |o.materials| > 1
    ensures ClosedGroups(FinalizeObject(o), paints)
  {
    var ms := CloseLast(o).materials;
    var n := |ms| - 1;
    ClosingKeepsChain(o, paints, force, ms);
    hide Chained, CoveredBy, IsEmptyGroup, DropEmpty, StartsAtZero, Tiles;
    assert ms == ms[..n] + [ms[n]];
    DropEmptyTail(ms[..n], ms[n]);
    var kept := if IsEmptyGroup(ms[n]) then ms[..n] else ms;
    KeptGroupsTile(ms, kept, paints);
    TilesCloseObject(FinalizeObject(o), kept, paints);
  }

  /** An empty last group can go: the group before it ends where the object does. */
  lemma KeptGroupsTile(ms: seq<Material>, kept: seq<Material>, paints: seq<Paint>)
    requires |ms| > 1 && StartsAtZero(ms)
    requires forall i | 0 <= i < |ms| - 1 :: Chained(ms, i) && CoveredBy(ms[i], ms[i].groupEnd, paints)
    requires var last := ms[|ms| - 1];
             && last.Material? && last.groupEnd == |paints| && CoveredBy(last, last.groupEnd, paints)
             && (if IsEmptyGroup(last) then last.groupStart == |paints| else Chained(ms, |ms| - 1))
             && kept == if IsEmptyGroup(last) then ms[..|ms| - 1] else ms
    ensures kept != [] && Tiles(kept, |paints|)
    ensures forall i | 0 <= i < |kept| :: Chained(kept, i) && CoveredBy(kept[i], kept[i].groupEnd, paints)
  {
    hide CoveredBy, IsEmptyGroup;
    assert Chained(ms, |ms| - 2);
    forall i | 0 <= i < |kept| ensures Chained(kept, i) {
      assert Chained(ms, i);
    }
  }

  lemma FinalizeClosesGroups(o: Obj, paints: seq<Paint>, force: Paint)
    requires OpenGroups(o, paints, force)
    ensures ClosedGroups(FinalizeObject(o), paints)
  {
    if |o.materials| == 1 {
      FinalizeOne(o, paints, force);
    } else if |o.materials| > 1 {
      FinalizeMany(o, paints, force);
    }
  }

  // ---------------------------------------------------------------- whole files

  ghost predicate Matches(l: Loader, c: Canvas) {
    var last := |l.objects| - 1;
    && |l.objects| == |c.objects| > 0
    && (forall k | 0 <= k < last :: ClosedGroups(l.objects[k], c.objects[k]))
    && OpenGroups(l.objects[last], c.objects[last], c.force)
    && l.objects[last].fromDeclaration == c.declared
  }

  lemma LineKeepsMatch(l: Loader, c: Canvas, line: Line)
    requires Matches(l, c)
    ensures Matches(ReadLine(l, line), PaintLine(c, line))
  {
    hide OpenGroups, ClosedGroups, FinalizeObject, WithMaterial, SetSmooth, Inherited;
    var last := |l.objects| - 1;
    var o, paints := l.objects[last], c.objects[last];
    match line
    case UseMtl(name) =>
      UseMtlKeepsGroups(o, paints, c.force, name, l.libraries);
      MaterialKeepsDeclaration(o, name, l.libraries);
    case GroupLine(name) =>
      if c.declared {
        FinalizeClosesGroups(o, paints, c.force);
        InheritanceKeepsPaint(o, paints, c.force, name);
      } else {
        RenamingKeepsGroups(o, paints, c.force, name);
      }
    case Smooth(on) =>
      SmoothKeepsGroups(o, paints, c.force, on);
      SmoothKeepsDeclaration(o, on);
      assert paints + Fill(c.force, 0) == paints;
    case VertexLine => assert paints + Fill(c.force, 0) == paints;
    case MtlLib(_) => assert paints + Fill(c.force, 0) == paints;
    case _ => EmissionKeepsGroups(o, paints, c.force, Emitted(line, l.vertexCount));
  }

  lemma RenamingKeepsGroups(o: Obj, paints: seq<Paint>, force: Paint, name: string)
    requires OpenGroups(o, paints, force)
    ensures OpenGroups(o.(name := name, fromDeclaration := true), paints, force)
  {}

  lemma MaterialKeepsDeclaration(o: Obj, name: string, libraries: seq<string>)
    ensures WithMaterial(o, name, libraries).fromDeclaration == o.fromDeclaration
  {}

  lemma SmoothKeepsDeclaration(o: Obj, on: bool)
    ensures SetSmooth(o, on).fromDeclaration == o.fromDeclaration
  {}

  lemma {:induction false} RunMatches(lines: seq<Line>)
    ensures Matches(ReadLines(lines), PaintLines(lines))
  {
    if lines != [] {
      hide ReadLine, PaintLine, Matches;
      RunMatches(lines[..|lines| - 1]);
      LineKeepsMatch(ReadLines(lines[..|lines| - 1]), PaintLines(lines[..|lines| - 1]), lines[|lines| - 1]);
    }
  }

  lemma ParsedIsClosed(lines: seq<Line>)
    ensures |Parsed(lines).objects| == |PaintLines(lines).objects|
    ensures forall k | 0 <= k < |Parsed(lines).objects| ::
              ClosedGroups(Parsed(lines).objects[k], PaintLines(lines).objects[k])
  {
    hide OpenGroups, ClosedGroups, FinalizeObject, ReadLines, PaintLines;
    RunMatches(lines);
    var l, c := ReadLines(lines), PaintLines(lines);
    var last := |l.objects| - 1;
    FinalizeClosesGroups(l.objects[last], c.objects[last], c.force);
  }

  /** With more than one material the groups tile the vertices: no gap, no overlap, none empty. */
  lemma GroupsTileGeometry(lines: seq<Line>)
    ensures forall o | o in Parsed(lines).objects ::
              o.materials != [] && (|o.materials| > 1 ==> Tiles(o.materials, |o.vertices|))
  {
    ParsedIsClosed(lines);
  }

  // ---------------------------------------------------------------- the material of a vertex

  /** The name of the material vertex `v` is drawn with: the only one, or that of its group. */
  function NameAt(ms: seq<Material>, v: nat): string {
    if ms == [] then ""
    else if |ms| == 1 then NameOf(ms[0])
    else
      var last := ms[|ms| - 1];
      if last.Material? && last.groupStart <= v < last.groupStart + last.groupCount then last.name
      else NameAt(ms[..|ms| - 1], v)
  }

  lemma {:induction false} TilesGiveNames(ms: seq<Material>, n: nat, paints: seq<Paint>, v: nat)
    requires Tiles(ms, n) && v < n <= |paints|
    requires forall i | 0 <= i < |ms| :: Chained(ms, i) && CoveredBy(ms[i], ms[i].groupEnd, paints)
    ensures NameAt(ms, v) == PaintName(paints[v])
  {
    var last, front := |ms| - 1, ms[..|ms| - 1];
    if last == 0 {
      assert CoveredBy(ms[0], ms[0].groupEnd, paints);
    } else {
      assert Chained(ms, last - 1);
      forall i | 0 <= i < last ensures Chained(front, i) && CoveredBy(front[i], front[i].groupEnd, paints) {
        assert Chained(ms, i);
      }
      PaintedBelow(ms, last, paints);
      if v >= ms[last].groupStart {
        assert CoveredBy(ms[last], ms[last].groupEnd, paints);
      } else {
        TilesGiveNames(front, ms[last].groupStart, paints, v);
      }
    }
  }

  /** Every vertex is drawn with the material it was painted with. */
  lemma MaterialAttribution(lines: seq<Line>, k: nat, v: nat)
    requires k < |Parsed(lines).objects| && v < |Parsed(lines).objects[k].vertices|
    ensures |Parsed(lines).objects| == |PaintLines(lines).objects|
    ensures |Parsed(lines).objects[k].vertices| == |PaintLines(lines).objects[k]|
    ensures NameAt(Parsed(lines).objects[k].materials, v) == PaintName(PaintLines(lines).objects[k][v])
  {
    hide Parsed, PaintLines;
    ParsedIsClosed(lines);
    var o, paints := Parsed(lines).objects[k], PaintLines(lines).objects[k];
    assert ClosedGroups(o, paints);
    if |o.materials| > 1 {
      TilesGiveNames(o.materials, |o.vertices|, paints, v);
    } else {
      assert paints[v] in paints;
    }
  }
}
