/** Conversion of an imported mesh scene into renderer meshes
    (`convert_assimp_scene_to_kiss3d_meshes`): one renderer mesh per
    sub-mesh, its vertices copied in order and only its three-index faces
    kept, in order, as triangles. */
module MeshConversion {

  /** A vertex of the importer (`assimp` `Vector3D`). */
  datatype Vector3D = Vector3D(x: real, y: real, z: real)

  /** A vertex of the renderer (`Point3<f32>`). */
  datatype Point3 = Point3(x: real, y: real, z: real)

  /** A face of the importer: the vertex indices it lists. */
  type Face = seq<nat>

  /** A triangle of the renderer: three vertex indices. */
  datatype Triangle = Triangle(a: nat, b: nat, c: nat)

  /** One imported sub-mesh. */
  datatype ImportedMesh = ImportedMesh(vertices: seq<Vector3D>, faces: seq<Face>)

  /** A renderer mesh (`Mesh::new(coords, faces, None, None, false)`). */
  datatype Mesh = Mesh(coords: seq<Point3>, faces: seq<Triangle>)

  predicate IsTriangle(f: Face) {
    |f| == 3
  }

  function ToPoint(v: Vector3D): Point3 {
    Point3(v.x, v.y, v.z)
  }

  function ToTriangle(f: Face): Triangle
    requires IsTriangle(f)
  {
    Triangle(f[0], f[1], f[2])
  }

  /** The vertex copy of one sub-mesh. */
  function ConvertVertices(vertices: seq<Vector3D>): (coords: seq<Point3>)
    ensures |coords| == |vertices|
    ensures forall i :: 0 <= i < |vertices| ==>
              coords[i].x == vertices[i].x && coords[i].y == vertices[i].y && coords[i].z == vertices[i].z
  {
    if vertices == [] then []
    else ConvertVertices(vertices[..|vertices| - 1]) + [ToPoint(vertices[|vertices| - 1])]
  }

  /** The `filter_map` over the faces: a triangle for each face with exactly
      three indices. */
  function TriangleFaces(faces: seq<Face>): (triangles: seq<Triangle>)
    ensures |triangles| <= |faces|
  {
    if faces == [] then []
    else
      var last := faces[|faces| - 1];
      TriangleFaces(faces[..|faces| - 1]) + (if IsTriangle(last) then [ToTriangle(last)] else [])
  }

  /** The positions of the three-index faces, in increasing order: the
      reference description of what the filter keeps. */
  function TriangleIndices(faces: seq<Face>): (idx: seq<nat>)
    ensures forall k :: 0 <= k < |idx| ==> idx[k] < |faces| && IsTriangle(faces[idx[k]])
    ensures forall k, l :: 0 <= k < l < |idx| ==> idx[k] < idx[l]
    ensures forall i :: 0 <= i < |faces| && IsTriangle(faces[i]) ==> i in idx
  {
    if faces == [] then []
    else
      var prev := TriangleIndices(faces[..|faces| - 1]);
      if IsTriangle(faces[|faces| - 1]) then prev + [|faces| - 1] else prev
  }

  /** The kept triangles are exactly the three-index faces, in their input
      order: the k-th triangle comes from the k-th three-index face. */
  lemma {:induction false} TriangleFacesAreFilteredFaces(faces: seq<Face>)
    ensures |TriangleFaces(faces)| == |TriangleIndices(faces)|
    ensures forall k :: 0 <= k < |TriangleIndices(faces)| ==>
              TriangleFaces(faces)[k] == ToTriangle(faces[TriangleIndices(faces)[k]])
  {
    if faces != [] {
      var init := faces[..|faces| - 1];
      TriangleFacesAreFilteredFaces(init);
      var idx := TriangleIndices(faces);
      var prev := TriangleIndices(init);
      forall k | 0 <= k < |prev| ensures faces[prev[k]] == init[prev[k]] {
      }
    }
  }

  /** Filtering commutes with concatenation, so the order of faces is kept. */
  lemma {:induction false} TriangleFacesAppend(a: seq<Face>, b: seq<Face>)
    ensures TriangleFaces(a + b) == TriangleFaces(a) + TriangleFaces(b)
  {
    if b == [] {
      assert a + b == a;
    } else {
      var b' := b[..|b| - 1];
      assert (a + b)[..|a + b| - 1] == a + b';
      assert (a + b)[|a + b| - 1] == b[|b| - 1];
      TriangleFacesAppend(a, b');
    }
  }

  /** Faces of sizes 3, 4 and 3 give exactly two triangles, the first and the
      last face. */
  lemma ThreeFourThreeExample(f1: Face, f2: Face, f3: Face)
    requires |f1| == 3 && |f2| == 4 && |f3| == 3
    ensures TriangleFaces([f1, f2, f3]) == [ToTriangle(f1), ToTriangle(f3)]
  {
    assert [f1][..0] == [];
    assert TriangleFaces([f1]) == [ToTriangle(f1)];
    assert [f1, f2][..1] == [f1];
    assert TriangleFaces([f1, f2]) == [ToTriangle(f1)];
    assert [f1, f2, f3][..2] == [f1, f2];
  }

  /** One sub-mesh becomes one renderer mesh. */
  function ConvertMesh(m: ImportedMesh): Mesh {
    Mesh(ConvertVertices(m.vertices), TriangleFaces(m.faces))
  }

  /** `convert_assimp_scene_to_kiss3d_meshes(scene)`. */
  function ConvertScene(scene: seq<ImportedMesh>): (meshes: seq<Mesh>)
    ensures |meshes| == |scene|
    ensures forall i :: 0 <= i < |scene| ==>
              |meshes[i].coords| == |scene[i].vertices|
              && meshes[i].faces == TriangleFaces(scene[i].faces)
    ensures forall i, j :: 0 <= i < |scene| && 0 <= j < |scene[i].vertices| ==>
              meshes[i].coords[j] == ToPoint(scene[i].vertices[j])
  {
    if scene == [] then []
    else [ConvertMesh(scene[0])] + ConvertScene(scene[1..])
  }
}
