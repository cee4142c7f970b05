/**
 What the OBJ parser emits, against an account by the file format: names and vertices of the objects, the
 material, library and smoothing in force. The account counts the vertex lines and follows the indices;
 it knows neither groups nor materials that are closed, spliced or dropped.
 */
module ObjGeometry {
  import opened ObjLoader
  import opened Wrappers

  // ---------------------------------------------------------------- the account

  /** An object: its name and the file vertices its elements list. */
  datatype Part = Part(name: string, vertices: seq<Vertex>)

  /** What a `usemtl` line puts in force: its name and the library named last before it. */
  datatype Use = Use(name: string, library: string)

  datatype Sketch = Sketch(
    parts: seq<Part>, declared: bool, count: nat, library: string, inForce: Maybe<Use>, smooth: bool)

  /** Indices count the vertex lines read so far: from one upwards, or from minus one downwards. */
  function Meant(index: Index, count: nat): Vertex {
    if index.NaN? then Undefined
    else if index.value < 0 then At(count + index.value)
    else At(index.value - 1)
  }

  /** Which corner of a face stands at place `t`: 0, j + 1 and j + 2 for triangle j. */
  function CornerNumber(t: nat): (corner: nat)
    ensures corner <= t / 3 + 2
  {
    if t % 3 == 0 then 0 else t / 3 + t % 3
  }

  lemma CornerNumbers(j: nat)
    ensures CornerNumber(3 * j) == 0 && CornerNumber(3 * j + 1) == j + 1 && CornerNumber(3 * j + 2) == j + 2
  {}

  /** The corners in the order in which they are emitted. */
  function Corners(line: Line): seq<Index> {
    match line
    case Face(corners) =>
      if |corners| < 3 then []
      else
        seq(3 * (|corners| - 2), t requires 0 <= t < 3 * (|corners| - 2) => corners[CornerNumber(t)])
    case LineElement(vertices) => vertices
    case Points(vertices) => vertices
    case _ => []
  }

  function Listed(line: Line, count: nat): seq<Vertex> {
    seq(|Corners(line)|, t requires 0 <= t < |Corners(line)| => Meant(Corners(line)[t], count))
  }

  function SketchLine(k: Sketch, line: Line): (r: Sketch)
    requires k.parts != []
    ensures r.parts != []
  {
    var last := |k.parts| - 1;
    var part := k.parts[last];
    match line
    case VertexLine => k.(count := k.count + 1)
    case MtlLib(file) => k.(library := file)
    case UseMtl(name) => k.(inForce := Just(Use(name, k.library)))
    case Smooth(on) => k.(smooth := on)
    case GroupLine(name) =>
      if !k.declared then k.(parts := k.parts[last := part.(name := name)], declared := true)
      else if k.inForce.Just? && k.inForce.value.name != "" then k.(parts := k.parts + [Part(name, [])])
      else k.(parts := k.parts + [Part(name, [])], inForce := Nothing, smooth := true)
    case _ => k.(parts := k.parts[last := part.(vertices := part.vertices + Listed(line, k.count))])
  }

  function SketchOf(lines: seq<Line>): (k: Sketch)
    ensures k.parts != []
  {
    if lines == [] then Sketch([Part("", [])], false, 0, "", Nothing, true)
    else SketchLine(SketchOf(lines[..|lines| - 1]), lines[|lines| - 1])
  }

  // ---------------------------------------------------------------- what is emitted

  lemma {:induction false} FanIsListed(corners: seq<Index>, n: nat, count: nat)
    requires n <= |corners|
    ensures forall t | 0 <= t < |Fan(corners, n, count)| ::
              Fan(corners, n, count)[t] == Meant(corners[CornerNumber(t)], count)
  {
    if n >= 3 {
      FanIsListed(corners, n - 1, count);
      CornerNumbers(n - 3);
      var before := 3 * (n - 3);
      hide CornerNumber;
      forall t | 0 <= t < before + 3
        ensures Fan(corners, n, count)[t] == Meant(corners[CornerNumber(t)], count)
      {
        assert t < before || t == before || t == before + 1 || t == before + 2;
      }
    }
  }

  lemma EmittedIsListed(line: Line, count: nat)
    ensures Emitted(line, count) == Listed(line, count)
  {
    if line.Face? {
      FanIsListed(line.corners, |line.corners|, count);
    }
  }

  ghost predicate SameObjects(objects: seq<Obj>, parts: seq<Part>) {
    |objects| == |parts| && forall k | 0 <= k < |objects| :: Part(objects[k].name, objects[k].vertices) == parts[k]
  }

  /** What is in force in an object that is still read. */
  ghost predicate IsInForce(o: Obj, inForce: Maybe<Use>, smooth: bool) {
    if o.materials == [] then inForce.Nothing? && o.smooth == smooth
    else
      var m := o.materials[|o.materials| - 1];
      m.Material? && inForce == Just(Use(m.name, m.mtllib)) && m.smooth == smooth
  }

  ghost predicate Sketches(l: Loader, k: Sketch) {
    && l.objects != [] && |l.objects| == |k.parts| && SameObjects(l.objects, k.parts)
    && l.objects[|l.objects| - 1].fromDeclaration == k.declared && l.vertexCount == k.count
    && k.library == (if l.libraries == [] then "" else l.libraries[|l.libraries| - 1])
    && IsInForce(l.objects[|l.objects| - 1], k.inForce, k.smooth)
  }

  lemma LastObjectChanges(objects: seq<Obj>, parts: seq<Part>, o: Obj, part: Part)
    requires SameObjects(objects, parts) && objects != [] && Part(o.name, o.vertices) == part
    ensures SameObjects(objects[|objects| - 1 := o], parts[|objects| - 1 := part])
    ensures Part(objects[|objects| - 1].name, objects[|objects| - 1].vertices) == parts[|parts| - 1]
  {}

  lemma ObjectFollows(objects: seq<Obj>, parts: seq<Part>, o: Obj)
    requires SameObjects(objects, parts)
    ensures SameObjects(objects + [o], parts + [Part(o.name, o.vertices)])
  {}

  lemma UseIsInForce(o: Obj, name: string, libraries: seq<string>, inForce: Maybe<Use>, smooth: bool)
    requires IsInForce(o, inForce, smooth)
    ensures var after, library := WithMaterial(o, name, libraries),
                                  if libraries == [] then "" else libraries[|libraries| - 1];
            && Part(after.name, after.vertices) == Part(o.name, o.vertices)
            && after.fromDeclaration == o.fromDeclaration
            && IsInForce(after, Just(Use(name, library)), smooth)
  {}

  lemma SmoothIsInForce(o: Obj, on: bool, inForce: Maybe<Use>, smooth: bool)
    requires IsInForce(o, inForce, smooth)
    ensures var after := SetSmooth(o, on);
            && Part(after.name, after.vertices) == Part(o.name, o.vertices)
            && after.fromDeclaration == o.fromDeclaration
            && IsInForce(after, inForce, on)
  {}

  lemma FinalizingKeepsPart(o: Obj)
    ensures FinalizeObject(o).name == o.name && FinalizeObject(o).vertices == o.vertices
  {
    hide DropEmpty;
  }

  lemma ObjectInherits(o: Obj, name: string, inForce: Maybe<Use>, smooth: bool)
    requires IsInForce(o, inForce, smooth)
    ensures var after := Obj(name, true, [], Inherited(o), true);
            if inForce.Just? && inForce.value.name != "" then IsInForce(after, inForce, smooth)
            else IsInForce(after, Nothing, true)
  {}

  lemma EmissionKeepsForce(o: Obj, after: Obj, inForce: Maybe<Use>, smooth: bool)
    requires IsInForce(o, inForce, smooth) && after.materials == o.materials && after.smooth == o.smooth
    ensures IsInForce(after, inForce, smooth)
  {}

  lemma GroupKeepsSketch(l: Loader, k: Sketch, name: string)
    requires Sketches(l, k)
    ensures Sketches(WithObject(l, name), SketchLine(k, GroupLine(name)))
  {
    hide FinalizeObject, Inherited, IsInForce, SameObjects;
    var last := |l.objects| - 1;
    var o, part := l.objects[last], k.parts[last];
    LastObjectChanges(l.objects, k.parts, o, Part(o.name, o.vertices));
    if k.declared {
      FinalizingKeepsPart(o);
      ObjectInherits(o, name, k.inForce, k.smooth);
      var closed := FinalizeObject(o);
      LastObjectChanges(l.objects, k.parts, closed, part);
      assert k.parts[last := part] == k.parts;
      ObjectFollows(l.objects[last := closed], k.parts, Obj(name, true, [], Inherited(o), true));
    } else {
      var renamed := o.(name := name, fromDeclaration := true);
      LastObjectChanges(l.objects, k.parts, renamed, part.(name := name));
      EmissionKeepsForce(o, renamed, k.inForce, k.smooth);
    }
  }

  /** A line that changes the current object only, and what is in force with it. */
  lemma CurrentKeepsSketch(l: Loader, k: Sketch, o: Obj, part: Part, inForce: Maybe<Use>, smooth: bool)
    requires Sketches(l, k) && Part(o.name, o.vertices) == part && o.fromDeclaration == k.declared
    requires IsInForce(o, inForce, smooth)
    ensures Sketches(l.(objects := l.objects[|l.objects| - 1 := o]),
                     k.(parts := k.parts[|k.parts| - 1 := part], inForce := inForce, smooth := smooth))
  {
    hide IsInForce, SameObjects;
    LastObjectChanges(l.objects, k.parts, o, part);
  }

  lemma LineKeepsSketch(l: Loader, k: Sketch, line: Line)
    requires Sketches(l, k)
    ensures Sketches(ReadLine(l, line), SketchLine(k, line))
  {
    hide Emitted, Listed, WithMaterial, SetSmooth, WithObject, IsInForce, SameObjects;
    var last := |l.objects| - 1;
    var o, part := l.objects[last], k.parts[last];
    LastObjectChanges(l.objects, k.parts, o, Part(o.name, o.vertices));
    assert k.parts[last := part] == k.parts;
    match line
    case UseMtl(name) =>
      UseIsInForce(o, name, l.libraries, k.inForce, k.smooth);
      CurrentKeepsSketch(l, k, WithMaterial(o, name, l.libraries), part, Just(Use(name, k.library)), k.smooth);
    case Smooth(on) =>
      SmoothIsInForce(o, on, k.inForce, k.smooth);
      CurrentKeepsSketch(l, k, SetSmooth(o, on), part, k.inForce, on);
    case GroupLine(name) => GroupKeepsSketch(l, k, name);
    case VertexLine =>
    case MtlLib(_) =>
    case _ =>
      EmittedIsListed(line, k.count);
      var after := o.(vertices := o.vertices + Emitted(line, l.vertexCount));
      EmissionKeepsForce(o, after, k.inForce, k.smooth);
      CurrentKeepsSketch(l, k, after, Part(after.name, after.vertices), k.inForce, k.smooth);
  }

  lemma {:induction false} RunKeepsSketch(lines: seq<Line>)
    ensures Sketches(ReadLines(lines), SketchOf(lines))
  {
    if lines != [] {
      hide Sketches, ReadLine, SketchLine;
      RunKeepsSketch(lines[..|lines| - 1]);
      LineKeepsSketch(ReadLines(lines[..|lines| - 1]), SketchOf(lines[..|lines| - 1]), lines[|lines| - 1]);
    } else {
      assert Sketches(INITIAL, Sketch([Part("", [])], false, 0, "", Nothing, true));
    }
  }

  /** For any lines the objects have the names and list the file vertices that the account gives. */
  lemma ObjectsAreSketched(lines: seq<Line>)
    ensures SameObjects(Parsed(lines).objects, SketchOf(lines).parts)
  {
    RunKeepsSketch(lines);
    hide FinalizeObject, SameObjects, SketchOf, ReadLines, IsInForce;
    var l, k := ReadLines(lines), SketchOf(lines);
    var last := |l.objects| - 1;
    var o := l.objects[last];
    LastObjectChanges(l.objects, k.parts, o, Part(o.name, o.vertices));
    FinalizingKeepsPart(o);
    LastObjectChanges(l.objects, k.parts, FinalizeObject(o), k.parts[last]);
    assert k.parts[last := k.parts[last]] == k.parts;
  }

  /** An object without any material ends with a placeholder that has the smoothing in force. */
  lemma PlaceholderIsSmoothed(lines: seq<Line>)
    requires SketchOf(lines).inForce.Nothing?
    ensures var objects := Parsed(lines).objects;
            objects[|objects| - 1].materials == [Placeholder(SketchOf(lines).smooth)]
    ensures forall name | SketchOf(lines).declared ::
              var objects := ReadLines(lines + [GroupLine(name)]).objects;
              |objects| > 1 && objects[|objects| - 2].materials == [Placeholder(SketchOf(lines).smooth)]
  {
    RunKeepsSketch(lines);
    hide SketchOf, SameObjects;
    var l := ReadLines(lines);
    var o := l.objects[|l.objects| - 1];
    assert FinalizeObject(o).materials == [Placeholder(o.smooth)];
    hide FinalizeObject, Inherited;
    forall name ensures ReadLines(lines + [GroupLine(name)]) == WithObject(l, name) {
      assert (lines + [GroupLine(name)])[..|lines|] == lines;
    }
    hide ReadLines;
  }

  // ---------------------------------------------------------------- what the indices mean

  /** How many vertices the lines have given. */
  function VertexLines(lines: seq<Line>): nat {
    if lines == [] then 0
    else VertexLines(lines[..|lines| - 1]) + if lines[|lines| - 1].VertexLine? then 1 else 0
  }

  lemma {:induction false} SketchCounts(lines: seq<Line>)
    ensures SketchOf(lines).count == VertexLines(lines)
  {
    if lines != [] {
      SketchCounts(lines[..|lines| - 1]);
    }
  }

  /** The parts are still there, with more vertices behind those they had. */
  ghost predicate Grow(early: seq<Part>, late: seq<Part>) {
    |early| <= |late| && forall k | 0 <= k < |early| :: early[k].vertices <= late[k].vertices
  }

  lemma LineGrows(k: Sketch, line: Line)
    requires k.parts != []
    ensures Grow(k.parts, SketchLine(k, line).parts)
  {
    hide Listed;
  }

  lemma GrowOn(early: seq<Part>, middle: seq<Part>, late: seq<Part>)
    requires Grow(early, middle) && Grow(middle, late)
    ensures Grow(early, late)
  {
    forall k | 0 <= k < |early| ensures early[k].vertices <= late[k].vertices {
      assert early[k].vertices <= middle[k].vertices;
    }
  }

  lemma {:induction false} PartsGrow(lines: seq<Line>, n: nat)
    requires n <= |lines|
    ensures Grow(SketchOf(lines[..n]).parts, SketchOf(lines).parts)
    decreases |lines|
  {
    if n == |lines| {
      assert lines[..n] == lines;
    } else {
      hide SketchLine, Grow;
      var front := lines[..|lines| - 1];
      assert front[..n] == lines[..n];
      PartsGrow(front, n);
      LineGrows(SketchOf(front), lines[|lines| - 1]);
      GrowOn(SketchOf(lines[..n]).parts, SketchOf(front).parts, SketchOf(lines).parts);
    }
  }

  /** The object that is read at line `i`, and how many vertices it has by then. */
  ghost function ObjectAt(lines: seq<Line>, i: nat): nat
    requires i <= |lines|
  {
    |SketchOf(lines[..i]).parts| - 1
  }

  ghost function VerticesAt(lines: seq<Line>, i: nat): nat
    requires i <= |lines|
  {
    |SketchOf(lines[..i]).parts[ObjectAt(lines, i)].vertices|
  }

  /** The piece stands in the whole from `start` on. */
  predicate StandsAt(whole: seq<Vertex>, start: nat, piece: seq<Vertex>) {
    start + |piece| <= |whole| && whole[start..start + |piece|] == piece
  }

  lemma PrefixStands(whole: seq<Vertex>, before: seq<Vertex>, piece: seq<Vertex>)
    requires before + piece <= whole
    ensures StandsAt(whole, |before|, piece)
  {
    assert whole[|before|..|before| + |piece|] == (before + piece)[|before|..];
  }

  lemma LineLists(k: Sketch, line: Line)
    requires k.parts != [] && Corners(line) != []
    ensures var last := |k.parts| - 1;
            SketchLine(k, line).parts[last].vertices == k.parts[last].vertices + Listed(line, k.count)
  {
    hide Listed;
  }

  /** What line `i` emits stands in its object from there on. */
  lemma LineIsEmitted(lines: seq<Line>, i: nat)
    requires i < |lines| && Corners(lines[i]) != []
    ensures ObjectAt(lines, i) < |Parsed(lines).objects|
    ensures StandsAt(Parsed(lines).objects[ObjectAt(lines, i)].vertices, VerticesAt(lines, i),
                     Listed(lines[i], VertexLines(lines[..i])))
  {
    hide Parsed, Corners, Listed, SketchLine, StandsAt;
    var k, next := ObjectAt(lines, i), lines[..i + 1];
    assert next[..i] == lines[..i] && next[i] == lines[i];
    SketchCounts(lines[..i]);
    LineLists(SketchOf(lines[..i]), lines[i]);
    LineGrows(SketchOf(lines[..i]), lines[i]);
    PartsGrow(lines, i + 1);
    ObjectsAreSketched(lines);
    var before, late := SketchOf(lines[..i]).parts[k].vertices, SketchOf(lines).parts[k].vertices;
    assert SketchOf(next) == SketchLine(SketchOf(lines[..i]), lines[i]);
    PrefixStands(late, before, Listed(lines[i], VertexLines(lines[..i])));
  }

  /** The file has such a vertex line. */
  predicate IsInFile(index: Index, count: nat) {
    index.Num? && (1 <= index.value <= count || 1 <= -index.value <= count)
  }

  /**
   Indices that the file has name its vertex lines: 1 the first one, minus 1 the last one read, and two
   indices name the same one when they are equal or differ by the number of lines and one.
   */
  ghost predicate NameVertexLines(corners: seq<Index>, vertices: seq<Vertex>, count: nat) {
    && |vertices| == |corners|
    && (forall t | 0 <= t < |corners| && IsInFile(corners[t], count) ::
          && vertices[t].At? && 0 <= vertices[t].number < count
          && (corners[t].value == 1 ==> vertices[t].number == 0)
          && (corners[t].value == -1 ==> vertices[t].number == count - 1))
    && forall t, u | 0 <= t < |corners| && 0 <= u < |corners| && IsInFile(corners[t], count)
                     && IsInFile(corners[u], count) ::
         vertices[t] == vertices[u] <==> AreSameIndex(corners[t].value, corners[u].value, count)
  }

  predicate AreSameIndex(i: int, j: int, count: nat) {
    i == j || i - count - 1 == j || j - count - 1 == i
  }

  lemma ListedNameVertexLines(line: Line, count: nat)
    ensures NameVertexLines(Corners(line), Listed(line, count), count)
  {
    hide Corners;
  }

  lemma FaceHasTriangles(corners: seq<Index>)
    requires Corners(Face(corners)) != []
    ensures |corners| >= 3
  {}

  ghost predicate AreTriangles(corners: seq<Index>, vertices: seq<Vertex>, count: nat) {
    && |vertices| == 3 * (|corners| - 2)
    && forall j | 0 <= j < |corners| - 2 ::
         vertices[3 * j..3 * j + 3]
         == [Meant(corners[0], count), Meant(corners[j + 1], count), Meant(corners[j + 2], count)]
  }

  lemma CornersOfTriangle(corners: seq<Index>, j: nat)
    requires j < |corners| - 2
    ensures var all := Corners(Face(corners));
            && 3 * j + 3 <= |all|
            && all[3 * j] == corners[0] && all[3 * j + 1] == corners[j + 1] && all[3 * j + 2] == corners[j + 2]
  {
    hide Corners, CornerNumber;
    CornerNumbers(j);
    CornerAt(corners, 3 * j);
    CornerAt(corners, 3 * j + 1);
    CornerAt(corners, 3 * j + 2);
  }

  lemma CornerAt(corners: seq<Index>, t: nat)
    requires t < 3 * (|corners| - 2)
    ensures t < |Corners(Face(corners))| && Corners(Face(corners))[t] == corners[CornerNumber(t)]
  {
    hide CornerNumber;
  }

  lemma ListedTriangles(corners: seq<Index>, count: nat)
    requires |corners| >= 3
    ensures AreTriangles(corners, Listed(Face(corners), count), count)
  {
    var vertices := Listed(Face(corners), count);
    assert |vertices| == 3 * (|corners| - 2);
    forall j | 0 <= j < |corners| - 2
      ensures vertices[3 * j..3 * j + 3]
              == [Meant(corners[0], count), Meant(corners[j + 1], count), Meant(corners[j + 2], count)]
    {
      hide Meant, Corners;
      CornersOfTriangle(corners, j);
    }
  }

  /** The vertices name vertex lines, and triangle `j` of a face has corners 0, j + 1 and j + 2. */
  ghost predicate IsWellListed(line: Line, vertices: seq<Vertex>, count: nat) {
    NameVertexLines(Corners(line), vertices, count) && (line.Face? ==> AreTriangles(line.corners, vertices, count))
  }

  lemma ListedIsWell(line: Line, count: nat)
    requires Corners(line) != []
    ensures IsWellListed(line, Listed(line, count), count)
  {
    ListedNameVertexLines(line, count);
    if line.Face? {
      FaceHasTriangles(line.corners);
      ListedTriangles(line.corners, count);
    }
    hide Corners, NameVertexLines, AreTriangles, Listed;
  }

  lemma StandsThere(whole: seq<Vertex>, start: nat, line: Line, count: nat)
    requires StandsAt(whole, start, Listed(line, count)) && IsWellListed(line, Listed(line, count), count)
    ensures start + |Corners(line)| <= |whole|
    ensures IsWellListed(line, whole[start..start + |Corners(line)|], count)
  {
    hide Corners, IsWellListed;
  }

  /** So it is for whatever line `i` emits. */
  lemma IndicesNameVertices(lines: seq<Line>, i: nat)
    requires i < |lines| && Corners(lines[i]) != []
    ensures ObjectAt(lines, i) < |Parsed(lines).objects|
    ensures var whole, start := Parsed(lines).objects[ObjectAt(lines, i)].vertices, VerticesAt(lines, i);
            var end := start + |Corners(lines[i])|;
            end <= |whole| && IsWellListed(lines[i], whole[start..end], VertexLines(lines[..i]))
  {
    hide *;
    LineIsEmitted(lines, i);
    ListedIsWell(lines[i], VertexLines(lines[..i]));
    StandsThere(Parsed(lines).objects[ObjectAt(lines, i)].vertices, VerticesAt(lines, i), lines[i],
                VertexLines(lines[..i]));
  }

  // ---------------------------------------------------------------- where materials come from

  function LibraryAfter(lines: seq<Line>): string {
    if lines == [] then ""
    else if lines[|lines| - 1].MtlLib? then lines[|lines| - 1].file
    else LibraryAfter(lines[..|lines| - 1])
  }

  /** Some `usemtl` line declares the material, and the library is the one named last before that line. */
  ghost predicate IsDeclared(lines: seq<Line>, m: Material) {
    m.Material? ==> exists i | 0 <= i < |lines| :: DeclaresAt(lines, i, m.name, m.mtllib)
  }

  predicate DeclaresAt(lines: seq<Line>, i: nat, name: string, library: string)
    requires i < |lines|
  {
    lines[i] == UseMtl(name) && library == LibraryAfter(lines[..i])
  }

  ghost predicate AreDeclared(lines: seq<Line>, ms: seq<Material>) {
    forall m | m in ms :: IsDeclared(lines, m)
  }

  lemma LaterIsDeclared(lines: seq<Line>, line: Line, ms: seq<Material>)
    requires AreDeclared(lines, ms)
    ensures AreDeclared(lines + [line], ms)
  {
    var all := lines + [line];
    forall m | m in ms && m.Material? ensures IsDeclared(all, m) {
      assert IsDeclared(lines, m);
      var i :| 0 <= i < |lines| && DeclaresAt(lines, i, m.name, m.mtllib);
      assert all[..i] == lines[..i];
      assert DeclaresAt(all, i, m.name, m.mtllib);
    }
  }

  /** Closing a group, inheriting it or switching its smoothing leaves its name and library alone. */
  predicate SameDeclaration(m: Material, n: Material) {
    n.Material? ==> m.Material? && m.name == n.name && m.mtllib == n.mtllib
  }

  lemma SameIsDeclared(lines: seq<Line>, ms: seq<Material>, ns: seq<Material>)
    requires AreDeclared(lines, ms)
    requires forall n | n in ns && n.Material? :: exists m | m in ms :: SameDeclaration(m, n)
    ensures AreDeclared(lines, ns)
  {
    forall n | n in ns && n.Material? ensures IsDeclared(lines, n) {
      var m :| m in ms && SameDeclaration(m, n);
      assert IsDeclared(lines, m);
    }
  }

  lemma CloseLastDeclares(o: Obj, n: Material)
    requires n in CloseLast(o).materials && n.Material?
    ensures exists m | m in o.materials :: SameDeclaration(m, n)
  {
    var i :| 0 <= i < |o.materials| && CloseLast(o).materials[i] == n;
    assert SameDeclaration(o.materials[i], n);
  }

  lemma {:induction false} DropEmptyIsPart(ms: seq<Material>, n: Material)
    requires n in DropEmpty(ms)
    ensures n in ms
  {
    if ms != [] && n in DropEmpty(ms[..|ms| - 1]) {
      DropEmptyIsPart(ms[..|ms| - 1], n);
    }
  }

  lemma FinalizedAreDeclared(lines: seq<Line>, o: Obj)
    requires AreDeclared(lines, o.materials)
    ensures AreDeclared(lines, FinalizeObject(o).materials)
  {
    hide IsDeclared, CloseLast, SameDeclaration;
    forall n | n in FinalizeObject(o).materials && n.Material?
      ensures exists m | m in o.materials :: SameDeclaration(m, n)
    {
      if n !in CloseLast(o).materials {
        DropEmptyIsPart(CloseLast(o).materials, n);
      }
      CloseLastDeclares(o, n);
    }
    SameIsDeclared(lines, o.materials, FinalizeObject(o).materials);
  }

  lemma UsedAreDeclared(lines: seq<Line>, o: Obj, name: string, libraries: seq<string>)
    requires AreDeclared(lines, o.materials)
    requires LibraryAfter(lines) == if libraries == [] then "" else libraries[|libraries| - 1]
    ensures AreDeclared(lines + [UseMtl(name)], WithMaterial(o, name, libraries).materials)
  {
    var all, after := lines + [UseMtl(name)], WithMaterial(o, name, libraries).materials;
    LaterIsDeclared(lines, UseMtl(name), o.materials);
    UsedBesideOld(o, name, libraries);
    hide WithMaterial, AreDeclared, IsDeclared, CloseLast;
    forall n | n in after && n.Material? ensures IsDeclared(all, n) {
      if n in CloseLast(o).materials {
        CloseLastDeclares(o, n);
        SameIsDeclared(all, o.materials, [n]);
        OneIsDeclared(all, n);
      } else {
        UsedIsDeclared(lines, n);
      }
    }
    AllAreDeclared(all, after);
  }

  lemma OneIsDeclared(lines: seq<Line>, m: Material)
    requires AreDeclared(lines, [m])
    ensures IsDeclared(lines, m)
  {
    hide IsDeclared;
    assert m in [m];
  }

  lemma AllAreDeclared(lines: seq<Line>, ms: seq<Material>)
    requires forall m | m in ms && m.Material? :: IsDeclared(lines, m)
    ensures AreDeclared(lines, ms)
  {}

  lemma UsedIsDeclared(lines: seq<Line>, m: Material)
    requires m.Material? && m.mtllib == LibraryAfter(lines)
    ensures IsDeclared(lines + [UseMtl(m.name)], m)
  {
    var all := lines + [UseMtl(m.name)];
    assert all[..|lines|] == lines;
    assert DeclaresAt(all, |lines|, m.name, m.mtllib);
  }

  lemma UsedBesideOld(o: Obj, name: string, libraries: seq<string>)
    ensures forall n | n in WithMaterial(o, name, libraries).materials ::
              n in CloseLast(o).materials
              || (n.Material? && n.name == name
                  && n.mtllib == if libraries == [] then "" else libraries[|libraries| - 1])
  {
    hide CloseLast;
  }

  ghost predicate AllDeclared(lines: seq<Line>, l: Loader) {
    && LibraryAfter(lines) == (if l.libraries == [] then "" else l.libraries[|l.libraries| - 1])
    && forall o | o in l.objects :: AreDeclared(lines, o.materials)
  }

  lemma LineKeepsDeclared(lines: seq<Line>, l: Loader, line: Line)
    requires l.objects != [] && AllDeclared(lines, l)
    ensures AllDeclared(lines + [line], ReadLine(l, line))
  {
    hide AreDeclared, FinalizeObject, WithMaterial, SetSmooth, Emitted, Inherited;
    var all, last := lines + [line], |l.objects| - 1;
    var o, after := l.objects[last], ReadLine(l, line);
    assert o in l.objects && all[..|lines|] == lines;
    forall p | p in l.objects ensures AreDeclared(all, p.materials) {
      LaterIsDeclared(lines, line, p.materials);
    }
    if line.UseMtl? {
      UsedAreDeclared(lines, o, line.name, l.libraries);
    } else if line.Smooth? {
      SmoothAreDeclared(all, o, line.on);
    } else if line.GroupLine? {
      FinalizedAreDeclared(all, o);
      InheritedAreDeclared(all, o);
    }
    forall p | p in after.objects ensures AreDeclared(all, p.materials) {
      var k :| 0 <= k < |after.objects| && after.objects[k] == p;
      if k < last {
        assert p == l.objects[k];
      }
    }
  }

  lemma SmoothAreDeclared(lines: seq<Line>, o: Obj, on: bool)
    requires AreDeclared(lines, o.materials)
    ensures AreDeclared(lines, SetSmooth(o, on).materials)
  {
    var after := SetSmooth(o, on).materials;
    forall n | n in after && n.Material? ensures exists m | m in o.materials :: SameDeclaration(m, n) {
      var j :| 0 <= j < |after| && after[j] == n;
      assert SameDeclaration(o.materials[j], n);
    }
    SameIsDeclared(lines, o.materials, after);
  }

  lemma InheritedAreDeclared(lines: seq<Line>, o: Obj)
    requires AreDeclared(lines, o.materials)
    ensures AreDeclared(lines, Inherited(o))
  {
    if Inherited(o) != [] {
      assert SameDeclaration(o.materials[|o.materials| - 1], Inherited(o)[0]);
      SameIsDeclared(lines, o.materials, Inherited(o));
    }
  }

  lemma {:induction false} RunKeepsDeclared(lines: seq<Line>)
    ensures AllDeclared(lines, ReadLines(lines))
  {
    if lines != [] {
      hide AllDeclared, ReadLine;
      var front, line := lines[..|lines| - 1], lines[|lines| - 1];
      RunKeepsDeclared(front);
      LineKeepsDeclared(front, ReadLines(front), line);
      assert lines == front + [line];
    }
  }

  /** For any lines every material of every object was declared, with the library in force at its declaration. */
  lemma MaterialsAreDeclared(lines: seq<Line>)
    ensures forall o, m | o in Parsed(lines).objects && m in o.materials :: IsDeclared(lines, m)
  {
    hide FinalizeObject, IsDeclared, ReadLines;
    RunKeepsDeclared(lines);
    var l := ReadLines(lines);
    var last := |l.objects| - 1;
    FinalizedAreDeclared(lines, l.objects[last]);
    forall o | o in Parsed(lines).objects ensures AreDeclared(lines, o.materials) {
      var k :| 0 <= k < |l.objects| && Parsed(lines).objects[k] == o;
      if k < last {
        assert o == l.objects[k];
      }
    }
  }
}
