/**
 The state machine of OBJLoader.js: objects, their materials, and the vertex groups the materials
 cover. `Loader` is the state as a value and the functions on it are the specification; the classes
 `ObjObject` and `ParserState` are the source's objects, updated in place.
 */
module ObjLoader {

  /** What a line of the file says, after its words are read; `NaN` is an index that does not parse. */
  datatype Line =
    | VertexLine
    | Face(corners: seq<Index>)
    | LineElement(vertices: seq<Index>)
    | Points(vertices: seq<Index>)
    | GroupLine(name: string)
    | UseMtl(name: string)
    | MtlLib(file: string)
    | Smooth(on: bool)
    | Other

  datatype Index = Num(value: int) | NaN

  /** An emitted vertex: which vertex of the file it copies. */
  datatype Vertex = At(number: int) | Undefined

  /** A material with its vertex group, or the placeholder an object without materials ends with. */
  datatype Material =
    | Material(index: nat, name: string, mtllib: string, smooth: bool,
               groupStart: int, groupEnd: int, groupCount: int, inherited: bool)
    | Placeholder(smooth: bool)

  datatype Obj = Obj(name: string, fromDeclaration: bool, vertices: seq<Vertex>, materials: seq<Material>, smooth: bool)

  /** The current object is the last one. */
  datatype Loader = Loader(objects: seq<Obj>, vertexCount: nat, libraries: seq<string>)

  function NameOf(m: Material): string {
    if m.Material? then m.name else ""
  }

  // ---------------------------------------------------------------- one object

  /** `_finalize`, first part: close the group of the last material if it is open. */
  function CloseGroup(m: Material, vertices: nat): Material {
    if m.Material? && m.groupEnd == -1
    then m.(groupEnd := vertices, groupCount := vertices - m.groupStart, inherited := false)
    else m
  }

  function CloseLast(o: Obj): Obj {
    if o.materials == [] then o
    else
      var last := |o.materials| - 1;
      o.(materials := o.materials[last := CloseGroup(o.materials[last], |o.vertices|)])
  }

  predicate IsEmptyGroup(m: Material) {
    m.Material? && m.groupCount <= 0
  }

  function DropEmpty(materials: seq<Material>): seq<Material> {
    if materials == [] then []
    else
      var last := |materials| - 1;
      DropEmpty(materials[..last]) + if IsEmptyGroup(materials[last]) then [] else [materials[last]]
  }

  /** `_finalize(true)` */
  function FinalizeObject(o: Obj): Obj {
    var closed := CloseLast(o);
    var kept := if |closed.materials| > 1 then DropEmpty(closed.materials) else closed.materials;
    closed.(materials := if kept == [] then [Placeholder(o.smooth)] else kept)
  }

  /** `materials.splice(index, 1)` */
  function Splice(materials: seq<Material>, index: nat): seq<Material> {
    if index < |materials| then materials[..index] + materials[index + 1..] else materials
  }

  /** One material goes, the others keep their order. */
  lemma SpliceTakesOne(materials: seq<Material>, index: nat, k: nat)
    requires index < |materials| && k < |materials| - 1
    ensures |Splice(materials, index)| == |materials| - 1
    ensures Splice(materials, index)[k] == materials[if k < index then k else k + 1]
  {}

  /** A group that is closed already stays as it is. */
  lemma ClosedGroupStays(m: Material, vertices: nat)
    requires m.Material? && m.groupEnd != -1
    ensures CloseGroup(m, vertices) == m
  {}

  function WithMaterial(o: Obj, name: string, libraries: seq<string>): Obj {
    var closed := CloseLast(o);
    var library := if libraries == [] then "" else libraries[|libraries| - 1];
    if closed.materials == [] || closed.materials[|closed.materials| - 1].Placeholder? then
      closed.(materials := closed.materials
        + [Material(|closed.materials|, name, library, o.smooth, 0, -1, -1, false)])
    else
      var previous := closed.materials[|closed.materials| - 1];
      var kept := if previous.inherited || previous.groupCount <= 0
                  then Splice(closed.materials, previous.index) else closed.materials;
      closed.(materials := kept
        + [Material(|kept|, name, library, previous.smooth, previous.groupEnd, -1, -1, false)])
  }

  function SetSmooth(o: Obj, on: bool): Obj {
    var materials :=
      if o.materials == [] then []
      else o.materials[|o.materials| - 1 := o.materials[|o.materials| - 1].(smooth := on)];
    o.(smooth := on, materials := materials)
  }

  // ---------------------------------------------------------------- the state

  /** A new object inherits the material in force when that has a name. */
  function Inherited(o: Obj): seq<Material> {
    if o.materials == [] then []
    else
      var previous := o.materials[|o.materials| - 1];
      if NameOf(previous) == "" then []
      else [previous.(index := 0, groupStart := 0, groupEnd := -1, groupCount := -1, inherited := true)]
  }

  function WithObject(l: Loader, name: string): Loader
    requires l.objects != []
  {
    var last := |l.objects| - 1;
    var current := l.objects[last];
    if !current.fromDeclaration then
      l.(objects := l.objects[last := current.(name := name, fromDeclaration := true)])
    else
      l.(objects := l.objects[last := FinalizeObject(current)] + [Obj(name, true, [], Inherited(current), true)])
  }

  /** `parseVertexIndex`, counted in vertices instead of coordinates. */
  function ParseVertexIndex(index: Index, count: nat): Vertex {
    match index
    case Num(i) => At(if i >= 0 then i - 1 else i + count)
    case NaN => Undefined
  }

  function ParseAll(indices: seq<Index>, count: nat): seq<Vertex> {
    seq(|indices|, i requires 0 <= i < |indices| => ParseVertexIndex(indices[i], count))
  }

  /** The fan of triangles over the corners up to `n`: (0, 1, 2), (0, 2, 3), ... */
  function Fan(corners: seq<Index>, n: nat, count: nat): (vertices: seq<Vertex>)
    requires n <= |corners|
    ensures |vertices| == if n < 3 then 0 else 3 * (n - 2)
  {
    if n < 3 then []
    else Fan(corners, n - 1, count) + ParseAll([corners[0], corners[n - 2], corners[n - 1]], count)
  }

  function Emitted(line: Line, count: nat): seq<Vertex> {
    match line
    case Face(corners) => Fan(corners, |corners|, count)
    case LineElement(vertices) => ParseAll(vertices, count)
    case Points(vertices) => ParseAll(vertices, count)
    case _ => []
  }

  function ReadLine(l: Loader, line: Line): (r: Loader)
    requires l.objects != []
    ensures r.objects != []
  {
    var last := |l.objects| - 1;
    var current := l.objects[last];
    match line
    case VertexLine => l.(vertexCount := l.vertexCount + 1)
    case GroupLine(name) => WithObject(l, name)
    case UseMtl(name) => l.(objects := l.objects[last := WithMaterial(current, name, l.libraries)])
    case MtlLib(file) => l.(libraries := l.libraries + [file])
    case Smooth(on) => l.(objects := l.objects[last := SetSmooth(current, on)])
    case _ => l.(objects := l.objects[last := current.(vertices := current.vertices + Emitted(line, l.vertexCount))])
  }

  const INITIAL := Loader([Obj("", false, [], [], true)], 0, [])

  function ReadLines(lines: seq<Line>): (l: Loader)
    ensures l.objects != []
  {
    if lines == [] then INITIAL else ReadLine(ReadLines(lines[..|lines| - 1]), lines[|lines| - 1])
  }

  function FinalizeLast(l: Loader): (r: Loader)
    requires l.objects != []
    ensures r.objects != []
  {
    var last := |l.objects| - 1;
    l.(objects := l.objects[last := FinalizeObject(l.objects[last])])
  }

  /** What `parse` builds the meshes from. */
  function Parsed(lines: seq<Line>): Loader {
    FinalizeLast(ReadLines(lines))
  }

  // ---------------------------------------------------------------- the source's objects

  class ObjObject {
    var name: string
    var fromDeclaration: bool
    var vertices: seq<Vertex>
    var materials: seq<Material>
    var smooth: bool

    ghost function AsObj(): Obj
      reads this
    {
      Obj(name, fromDeclaration, vertices, materials, smooth)
    }

    constructor (name: string, fromDeclaration: bool, materials: seq<Material>)
      ensures AsObj() == Obj(name, fromDeclaration, [], materials, true)
    {
      this.name, this.fromDeclaration := name, fromDeclaration;
      vertices, this.materials, smooth := [], materials, true;
    }

    /** The loop of `_finalize(true)`, from the last material down. */
    method RemoveEmptyGroups()
      modifies this`materials
      ensures materials == DropEmpty(old(materials))
    {
      ghost var closed := materials;
      var mi := |materials| - 1;
      assert closed[..mi + 1] == closed && materials[mi + 1..] == [];
      while mi >= 0
        invariant -1 <= mi < |materials|
        invariant mi < |closed| && materials[..mi + 1] == closed[..mi + 1]
        invariant DropEmpty(closed) == DropEmpty(closed[..mi + 1]) + materials[mi + 1..]
      {
        assert closed[..mi + 1][..mi] == closed[..mi];
        assert materials[mi] == closed[mi];
        assert materials[..mi] == closed[..mi];
        ghost var kept := materials[mi + 1..];
        if IsEmptyGroup(materials[mi]) {
          materials := materials[..mi] + materials[mi + 1..];
          assert materials[mi..] == kept;
        } else {
          assert materials[mi..] == [materials[mi]] + kept;
        }
        mi := mi - 1;
      }
    }

    method Finalize(end: bool) returns (hasLast: bool, lastMultiMaterial: Material)
      modifies this`materials
      ensures AsObj() == if end then FinalizeObject(old(AsObj())) else CloseLast(old(AsObj()))
      ensures hasLast <==> old(materials) != []
      ensures hasLast ==> lastMultiMaterial == CloseGroup(old(materials)[|old(materials)| - 1], |vertices|)
    {
      hasLast := |materials| > 0;
      lastMultiMaterial := Placeholder(smooth);
      if hasLast {
        lastMultiMaterial := CloseGroup(materials[|materials| - 1], |vertices|);
        materials := materials[|materials| - 1 := lastMultiMaterial];
      }
      if end && |materials| > 1 {
        RemoveEmptyGroups();
      }
      if end && |materials| == 0 {
        materials := [Placeholder(smooth)];
      }
    }

    /** The `s` line: the object and its current material. */
    method Smoothen(on: bool)
      modifies this`smooth, this`materials
      ensures AsObj() == SetSmooth(old(AsObj()), on)
    {
      smooth := on;
      if |materials| > 0 {
        var last := |materials| - 1;
        materials := materials[last := materials[last].(smooth := on)];
      }
    }

    method StartMaterial(name: string, libraries: seq<string>)
      modifies this`materials
      ensures AsObj() == WithMaterial(old(AsObj()), name, libraries)
    {
      var hasPrevious, previous := Finalize(false);
      var library := if |libraries| > 0 then libraries[|libraries| - 1] else "";
      if hasPrevious && previous.Material? {
        if previous.inherited || previous.groupCount <= 0 {
          materials := Splice(materials, previous.index);
        }
        materials := materials
          + [Material(|materials|, name, library, previous.smooth, previous.groupEnd, -1, -1, false)];
      } else {
        materials := materials + [Material(|materials|, name, library, smooth, 0, -1, -1, false)];
      }
    }
  }

  class ParserState {
    var objects: seq<ObjObject>
    var object_: ObjObject
    var vertexCount: nat
    var materialLibraries: seq<string>

    ghost predicate Valid()
      reads this
    {
      && |objects| > 0 && object_ == objects[|objects| - 1]
      && (forall i, j | 0 <= i < j < |objects| :: objects[i] != objects[j])
    }

    ghost function AsLoader(): Loader
      reads this, objects
    {
      Loader(seq(|objects|, i requires 0 <= i < |objects| reads this, objects => objects[i].AsObj()),
             vertexCount, materialLibraries)
    }

    /** When only the current object has changed, so has only the last object of the loader. */
    twostate lemma OnlyCurrentChanged()
      requires old(Valid()) && old(objects) == objects && old(object_) == object_
      requires forall o | o in objects && o != object_ :: unchanged(o)
      ensures var before := old(AsLoader()).objects;
              AsLoader().objects == before[|before| - 1 := object_.AsObj()]
    {
      var before := old(AsLoader()).objects;
      forall i | 0 <= i < |objects| - 1
        ensures AsLoader().objects[i] == before[i]
      {
        assert objects[i] in objects && objects[i] != object_;
      }
    }

    constructor ()
      ensures Valid() && AsLoader() == INITIAL && fresh(objects[..])
    {
      var first := new ObjObject("", false, []);
      objects, object_, vertexCount, materialLibraries := [first], first, 0, [];
    }

    method StartObject(name: string)
      requires Valid()
      modifies this, object_
      ensures Valid() && AsLoader() == WithObject(old(AsLoader()), name)
      ensures forall o | o in objects :: o in old(objects) || fresh(o)
    {
      hide FinalizeObject;
      if !object_.fromDeclaration {
        object_.name := name;
        object_.fromDeclaration := true;
        OnlyCurrentChanged();
        return;
      }
      var inherited: seq<Material> := [];
      if |object_.materials| > 0 {
        var previous := object_.materials[|object_.materials| - 1];
        if NameOf(previous) != "" {
          inherited := [previous.(index := 0, groupStart := 0, groupEnd := -1, groupCount := -1, inherited := true)];
        }
      }
      var _, _ := object_.Finalize(true);
      OnlyCurrentChanged();
      ghost var closed := AsLoader().objects;
      object_ := new ObjObject(name, true, inherited);
      objects := objects + [object_];
      assert AsLoader().objects == closed + [object_.AsObj()];
    }

    method AddVertices(line: Line)
      requires Valid()
      modifies object_`vertices
      ensures Valid()
      ensures object_.vertices == old(object_.vertices) + Emitted(line, vertexCount)
    {
      match line
      case Face(corners) =>
        ghost var before := object_.vertices;
        var j := 1;
        while j < |corners| - 1
          invariant 1 <= j && (|corners| >= 2 ==> j <= |corners| - 1)
          invariant |corners| < 2 ==> object_.vertices == before
          invariant |corners| >= 2 ==> object_.vertices == before + Fan(corners, j + 1, vertexCount)
        {
          object_.vertices := object_.vertices + ParseAll([corners[0], corners[j], corners[j + 1]], vertexCount);
          j := j + 1;
        }
      case LineElement(indices) => object_.vertices := object_.vertices + ParseAll(indices, vertexCount);
      case Points(indices) => object_.vertices := object_.vertices + ParseAll(indices, vertexCount);
      case _ =>
    }

    method Read(line: Line)
      requires Valid()
      modifies this, object_
      ensures Valid() && AsLoader() == ReadLine(old(AsLoader()), line)
      ensures forall o | o in objects :: o in old(objects) || fresh(o)
    {
      hide Emitted, WithMaterial, WithObject, SetSmooth, CloseGroup, FinalizeObject, Inherited;
      match line
      case VertexLine => vertexCount := vertexCount + 1;
      case GroupLine(name) => StartObject(name);
      case UseMtl(name) =>
        object_.StartMaterial(name, materialLibraries);
        OnlyCurrentChanged();
      case MtlLib(file) => materialLibraries := materialLibraries + [file];
      case Smooth(on) =>
        object_.Smoothen(on);
        OnlyCurrentChanged();
      case _ =>
        AddVertices(line);
        OnlyCurrentChanged();
    }
  }

  method Parse(lines: seq<Line>) returns (state: ParserState)
    ensures state.Valid() && state.AsLoader() == Parsed(lines)
  {
    hide ReadLine, FinalizeObject;
    state := new ParserState();
    var i := 0;
    while i < |lines|
      invariant 0 <= i <= |lines|
      invariant fresh(state) && (forall o | o in state.objects :: fresh(o))
      invariant state.Valid() && state.AsLoader() == ReadLines(lines[..i])
    {
      assert lines[..i + 1][..i] == lines[..i];
      assert state.object_ in state.objects;
      state.Read(lines[i]);
      i := i + 1;
    }
    assert lines[..i] == lines;
    assert state.object_ in state.objects;
    var _, _ := state.object_.Finalize(true);
  }
}
